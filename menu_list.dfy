/**
 * The menu management page: the two-level parent picker, the level and name lookups behind it,
 * and the dialog that adds or edits a menu record. The trees are the forests built by
 * `MenuService`; a node's `key` is its record's id.
 */
module MenuList {
  import opened Wrappers
  import opened Records
  import opened MenuService

  // ---------------------------------------------------------------------------------------------
  // Pre-order view with depths: the reference the lookups are stated against

  /** A node's own fields (without its children) and its depth; top-level nodes have depth `d`. */
  datatype Entry = Entry(item: MenuItem, key: int, title: string, depth: nat)

  /** The pre-order list of the nodes of `ns`, each with its depth. */
  function Entries(ns: seq<TreeNode>, d: nat): seq<Entry>
  {
    if ns == [] then []
    else [Entry(ns[0].item, ns[0].key, ns[0].title, d)] + Entries(ns[0].children, d + 1) + Entries(ns[1..], d)
  }

  /** The depth of the first entry whose key is `t`, or -1. */
  function FirstDepth(es: seq<Entry>, t: int): (r: int)
    ensures r == -1 || r >= 0
  {
    if es == [] then -1 else if es[0].key == t then es[0].depth else FirstDepth(es[1..], t)
  }

  /** The entries of depth 0 and 1, in order. */
  function Shallow(es: seq<Entry>): seq<Entry>
  {
    if es == [] then [] else (if es[0].depth < 2 then [es[0]] else []) + Shallow(es[1..])
  }

  /** What the picker shows for a node: `name || title`. */
  function DisplayName(e: Entry): string
  {
    if NonEmpty(e.item.name) then e.item.name else e.title
  }

  lemma {:induction false} FirstDepthAppend(a: seq<Entry>, b: seq<Entry>, t: int)
    ensures FirstDepth(a + b, t) == if FirstDepth(a, t) != -1 then FirstDepth(a, t) else FirstDepth(b, t)
    decreases |a|
  {
    if a == [] {
      assert a + b == b;
    } else {
      assert (a + b)[0] == a[0] && (a + b)[1..] == a[1..] + b;
      FirstDepthAppend(a[1..], b, t);
    }
  }

  lemma {:induction false} ShallowAppend(a: seq<Entry>, b: seq<Entry>)
    ensures Shallow(a + b) == Shallow(a) + Shallow(b)
    decreases |a|
  {
    if a == [] {
      assert a + b == b;
    } else {
      assert (a + b)[0] == a[0] && (a + b)[1..] == a[1..] + b;
      ShallowAppend(a[1..], b);
    }
  }

  /** All entries of a forest placed at depth `d` lie at depth `d` or deeper. */
  lemma {:induction false} EntriesDepth(ns: seq<TreeNode>, d: nat)
    ensures forall i :: 0 <= i < |Entries(ns, d)| ==> Entries(ns, d)[i].depth >= d
    decreases ns
  {
    if ns != [] {
      EntriesDepth(ns[0].children, d + 1);
      EntriesDepth(ns[1..], d);
      var a := [Entry(ns[0].item, ns[0].key, ns[0].title, d)];
      var b := Entries(ns[0].children, d + 1);
      var c := Entries(ns[1..], d);
      assert Entries(ns, d) == a + b + c;
      forall i | 0 <= i < |a + b + c| ensures (a + b + c)[i].depth >= d {
        if i < |a| {
        } else if i < |a| + |b| {
          assert (a + b + c)[i] == b[i - |a|];
        } else {
          assert (a + b + c)[i] == c[i - |a| - |b|];
        }
      }
    }
  }

  lemma {:induction false} ShallowOfDeep(es: seq<Entry>)
    requires forall i :: 0 <= i < |es| ==> es[i].depth >= 2
    ensures Shallow(es) == []
  {
    if es != [] {
      ShallowOfDeep(es[1..]);
    }
  }

  // ---------------------------------------------------------------------------------------------
  // filterTreeDataToTwoLevels

  /**
   * `filterTreeDataToTwoLevels(treeData, currentLevel)`: nothing at level 2 or deeper; otherwise a
   * copy of each node whose non-empty children are filtered one level deeper.
   */
  function FilterToTwoLevels(treeData: seq<TreeNode>, currentLevel: nat): (r: seq<TreeNode>)
    ensures currentLevel < 2 ==> |r| == |treeData|
    decreases treeData
  {
    if currentLevel >= 2 || treeData == [] then []
    else
      var node := treeData[0];
      var filtered := if |node.children| > 0 then node.(children := FilterToTwoLevels(node.children, currentLevel + 1)) else node;
      [filtered] + FilterToTwoLevels(treeData[1..], currentLevel)
  }

  /**
   * The picker keeps exactly the nodes of depth 0 and 1, with their own fields, in pre-order,
   * and nothing deeper.
   */
  lemma {:induction false} FilterKeepsTwoLevels(ns: seq<TreeNode>, d: nat)
    ensures Entries(FilterToTwoLevels(ns, d), d) == Shallow(Entries(ns, d))
    decreases ns
  {
    if d >= 2 {
      EntriesDepth(ns, d);
      ShallowOfDeep(Entries(ns, d));
    } else if ns != [] {
      var node := ns[0];
      var e := Entry(node.item, node.key, node.title, d);
      FilterKeepsTwoLevels(node.children, d + 1);
      FilterKeepsTwoLevels(ns[1..], d);
      ShallowAppend([e] + Entries(node.children, d + 1), Entries(ns[1..], d));
      ShallowAppend([e], Entries(node.children, d + 1));
      assert Shallow([e]) == [e];
      var r := FilterToTwoLevels(ns, d);
      assert r[1..] == FilterToTwoLevels(ns[1..], d);
      if |node.children| == 0 {
        assert Entries(node.children, d + 1) == [];
        assert FilterToTwoLevels(node.children, d + 1) == [];
      }
    }
  }

  /** Every node of the picker has depth 0 or 1. */
  lemma FilterDepthBelowTwo(ns: seq<TreeNode>)
    ensures forall i :: 0 <= i < |Entries(FilterToTwoLevels(ns, 0), 0)| ==> Entries(FilterToTwoLevels(ns, 0), 0)[i].depth < 2
  {
    FilterKeepsTwoLevels(ns, 0);
    ShallowBelowTwo(Entries(ns, 0));
  }

  lemma {:induction false} ShallowBelowTwo(es: seq<Entry>)
    ensures forall i :: 0 <= i < |Shallow(es)| ==> Shallow(es)[i].depth < 2
  {
    if es != [] {
      ShallowBelowTwo(es[1..]);
    }
  }

  // ---------------------------------------------------------------------------------------------
  // findNodeLevel and findNodeName

  /**
   * `findNodeLevel(nodes, targetId, currentLevel)`: the level of the first node (in pre-order)
   * whose key is `targetId`, or -1.
   */
  function FindNodeLevel(nodes: seq<TreeNode>, targetId: int, currentLevel: nat): int
    decreases nodes
  {
    if nodes == [] then -1
    else
      var node := nodes[0];
      if node.key == targetId then currentLevel
      else
        var level := if |node.children| > 0 then FindNodeLevel(node.children, targetId, currentLevel + 1) else -1;
        if level != -1 then level else FindNodeLevel(nodes[1..], targetId, currentLevel)
  }

  /** The level search reports the depth of the first pre-order entry with the key, else -1. */
  lemma {:induction false} FindNodeLevelIsFirstDepth(ns: seq<TreeNode>, t: int, d: nat)
    ensures FindNodeLevel(ns, t, d) == FirstDepth(Entries(ns, d), t)
    decreases ns
  {
    if ns != [] {
      var node := ns[0];
      var e := Entry(node.item, node.key, node.title, d);
      FindNodeLevelIsFirstDepth(node.children, t, d + 1);
      FindNodeLevelIsFirstDepth(ns[1..], t, d);
      FirstDepthAppend([e] + Entries(node.children, d + 1), Entries(ns[1..], d), t);
      FirstDepthAppend([e], Entries(node.children, d + 1), t);
      if |node.children| == 0 {
        assert Entries(node.children, d + 1) == [];
      }
    }
  }

  lemma {:induction false} FirstDepthBound(es: seq<Entry>, bound: int, t: int)
    requires forall i :: 0 <= i < |es| ==> es[i].depth < bound
    ensures FirstDepth(es, t) < bound || FirstDepth(es, t) == -1
  {
    if es != [] {
      FirstDepthBound(es[1..], bound, t);
    }
  }

  /** On the picker tree the level of any key is -1, 0 or 1: the level-2 rejection cannot fire. */
  lemma PickerLevelBelowTwo(ns: seq<TreeNode>, t: int)
    ensures -1 <= FindNodeLevel(FilterToTwoLevels(ns, 0), t, 0) < 2
  {
    FindNodeLevelIsFirstDepth(FilterToTwoLevels(ns, 0), t, 0);
    FilterDepthBelowTwo(ns);
    FirstDepthBound(Entries(FilterToTwoLevels(ns, 0), 0), 2, t);
  }

  /**
   * `findNodeName(nodes, targetId)`, with `null` written as "": at the first node of `nodes`
   * whose key matches, `name || title`; a falsy answer from a child list lets the scan go on.
   */
  function FindNodeName(nodes: seq<TreeNode>, targetId: int): string
    decreases nodes
  {
    if nodes == [] then ""
    else
      var node := nodes[0];
      if node.key == targetId then (if NonEmpty(node.item.name) then node.item.name else node.title)
      else
        var name := if |node.children| > 0 then FindNodeName(node.children, targetId) else "";
        if NonEmpty(name) then name else FindNodeName(nodes[1..], targetId)
  }

  /** The display name of the first entry whose key is `t`, or "". */
  function FirstName(es: seq<Entry>, t: int): string
  {
    if es == [] then "" else if es[0].key == t then DisplayName(es[0]) else FirstName(es[1..], t)
  }

  /** Every entry of the list has a non-empty display name. */
  ghost predicate Named(es: seq<Entry>)
  {
    forall i :: 0 <= i < |es| ==> NonEmpty(DisplayName(es[i]))
  }

  lemma NamedSplit(a: seq<Entry>, b: seq<Entry>)
    requires Named(a + b)
    ensures Named(a) && Named(b)
  {
    assert forall i :: 0 <= i < |a| ==> (a + b)[i] == a[i];
    assert forall i :: 0 <= i < |b| ==> (a + b)[|a| + i] == b[i];
  }

  lemma {:induction false} FirstNameAppend(a: seq<Entry>, b: seq<Entry>, t: int)
    requires Named(a)
    ensures FirstName(a + b, t) == if NonEmpty(FirstName(a, t)) then FirstName(a, t) else FirstName(b, t)
    decreases |a|
  {
    if a == [] {
      assert a + b == b;
    } else {
      assert (a + b)[0] == a[0] && (a + b)[1..] == a[1..] + b;
      FirstNameAppend(a[1..], b, t);
    }
  }

  /** Every node of the forest has a non-empty display name. */
  ghost predicate AllNamed(ns: seq<TreeNode>)
  {
    Named(Entries(ns, 0))
  }

  /** Depths do not affect names: the entries at any two starting depths agree except in depth. */
  lemma {:induction false} EntriesShift(ns: seq<TreeNode>, d: nat, d': nat)
    ensures |Entries(ns, d)| == |Entries(ns, d')|
    ensures forall i :: 0 <= i < |Entries(ns, d)| ==>
              Entries(ns, d)[i].(depth := 0) == Entries(ns, d')[i].(depth := 0)
    decreases ns
  {
    if ns != [] {
      EntriesShift(ns[0].children, d + 1, d' + 1);
      EntriesShift(ns[1..], d, d');
      var a := [Entry(ns[0].item, ns[0].key, ns[0].title, d)];
      var b := Entries(ns[0].children, d + 1);
      var c := Entries(ns[1..], d);
      var a' := [Entry(ns[0].item, ns[0].key, ns[0].title, d')];
      var b' := Entries(ns[0].children, d' + 1);
      var c' := Entries(ns[1..], d');
      assert Entries(ns, d) == a + b + c && Entries(ns, d') == a' + b' + c';
      forall i | 0 <= i < |a + b + c| ensures (a + b + c)[i].(depth := 0) == (a' + b' + c')[i].(depth := 0) {
        if i < 1 {
        } else if i < 1 + |b| {
          assert (a + b + c)[i] == b[i - 1] && (a' + b' + c')[i] == b'[i - 1];
        } else {
          assert (a + b + c)[i] == c[i - 1 - |b|] && (a' + b' + c')[i] == c'[i - 1 - |b|];
        }
      }
    }
  }

  /** The name lookup, stated over entries placed at an arbitrary depth. */
  lemma {:induction false} FindNodeNameAt(ns: seq<TreeNode>, t: int, d: nat)
    requires Named(Entries(ns, d))
    ensures FindNodeName(ns, t) == FirstName(Entries(ns, d), t)
    decreases ns
  {
    if ns != [] {
      var node := ns[0];
      var a := [Entry(node.item, node.key, node.title, d)];
      var b := Entries(node.children, d + 1);
      var c := Entries(ns[1..], d);
      assert Entries(ns, d) == a + b + c;
      NamedSplit(a + b, c);
      NamedSplit(a, b);
      FindNodeNameAt(node.children, t, d + 1);
      FindNodeNameAt(ns[1..], t, d);
      FirstNameAppend(a + b, c, t);
      FirstNameAppend(a, b, t);
      if |node.children| == 0 {
        assert b == [];
      }
    }
  }

  /**
   * When every node has a name or title, the name lookup returns the display name of the first
   * pre-order node with the key, or "" (null) when there is none.
   */
  lemma FindNodeNameIsFirst(ns: seq<TreeNode>, t: int)
    requires AllNamed(ns)
    ensures FindNodeName(ns, t) == FirstName(Entries(ns, 0), t)
  {
    FindNodeNameAt(ns, t, 0);
  }

  // ---------------------------------------------------------------------------------------------
  // The icon column

  /** The names of `commonIcons`, in list order. */
  const CommonIcons: seq<string> := [
    "UserOutlined", "DashboardOutlined", "SettingOutlined", "AppstoreOutlined",
    "FileTextOutlined", "TeamOutlined", "ToolOutlined", "HomeOutlined",
    "MenuOutlined", "UsergroupAddOutlined", "KeyOutlined", "LockOutlined",
    "EyeOutlined", "EyeInvisibleOutlined", "SearchOutlined", "FilterOutlined",
    "ExportOutlined", "ImportOutlined", "DownloadOutlined", "UploadOutlined"]

  /** The icon cell: the common icon with that name, or nothing. */
  function IconCell(icon: string): (r: Option<string>)
    ensures r.Some? <==> icon in CommonIcons
    ensures r.Some? ==> r.value == icon
  {
    if icon in CommonIcons then Some(icon) else None
  }

  // ---------------------------------------------------------------------------------------------
  // The menu dialog

  /** The fields of the menu form; a numeric field the form has not been given is `None`. */
  datatype MenuForm = MenuForm(
    mtype: Option<int>,
    name: string,
    url: string,
    perms: string,
    icon: string,
    orderNum: Option<int>,
    parentId: Option<int>)

  /** The form after `resetFields` (no field has an initial value). */
  const EmptyMenuForm := MenuForm(None, "", "", "", "", None, None)

  /** What the dialog sends to the menu service: the form values with the chosen parent. */
  datatype MenuRequest =
    | AddMenu(values: MenuForm, parentId: int)
    | UpdateMenu(values: MenuForm, parentId: int, menuId: int)

  /** The text of the root entry the picker shows as parent name. */
  const RootName := "根节点"

  /**
   * The dialog state of the menu page. `treeData` is the two-level picker tree; the other fields
   * are the page's state variables of the same names and the form.
   */
  class MenuEditor {
    var treeData: seq<TreeNode>
    var selectedParentId: int
    var selectedNodeName: string
    var editingId: Option<int>
    var isEditMode: bool
    var showTreeSelection: bool
    var visible: bool
    var form: MenuForm

    /** The page after `loadData`: the picker is the full tree cut to two levels. */
    constructor(tree: seq<TreeNode>)
      ensures treeData == FilterToTwoLevels(tree, 0)
      ensures selectedParentId == 0 && selectedNodeName == "" && editingId == None
      ensures !isEditMode && !showTreeSelection && !visible && form == EmptyMenuForm
      ensures PickerShallow()
    {
      FilterDepthBelowTwo(tree);
      treeData := FilterToTwoLevels(tree, 0);
      selectedParentId := 0;
      selectedNodeName := "";
      editingId := None;
      isEditMode := false;
      showTreeSelection := false;
      visible := false;
      form := EmptyMenuForm;
    }

    /** The picker contains no node of depth 2 or more. */
    ghost predicate PickerShallow()
      reads this
    {
      forall i :: 0 <= i < |Entries(treeData, 0)| ==> Entries(treeData, 0)[i].depth < 2
    }

    /** `handleAdd`: a new record under the root, with an empty form and the picker shown. */
    method HandleAdd()
      modifies this
      ensures !isEditMode && editingId == None && form == EmptyMenuForm
      ensures selectedParentId == 0 && selectedNodeName == ""
      ensures showTreeSelection && visible && treeData == old(treeData)
    {
      isEditMode := false;
      editingId := None;
      form := EmptyMenuForm;
      selectedParentId := 0;
      selectedNodeName := "";
      showTreeSelection := true;
      visible := true;
    }

    /**
     * `handleEdit`: the record's fields in the form and its parent as the selection; the parent
     * name is the picker's name for it, else the root text for parent 0, else empty.
     */
    method HandleEdit(record: MenuItem)
      modifies this
      ensures isEditMode && editingId == Some(record.menuId) && selectedParentId == record.parentId
      ensures form == MenuForm(Some(record.mtype), record.name, record.url, record.perms, record.icon,
                               Some(record.orderNum), Some(record.parentId))
      ensures var found := FindNodeName(old(treeData), record.parentId);
              selectedNodeName == if NonEmpty(found) then found else if record.parentId == 0 then RootName else ""
      ensures showTreeSelection && visible && treeData == old(treeData)
    {
      isEditMode := true;
      editingId := Some(record.menuId);
      selectedParentId := record.parentId;
      form := MenuForm(Some(record.mtype), record.name, record.url, record.perms, record.icon,
                       Some(record.orderNum), Some(record.parentId));
      var nodeName := FindNodeName(treeData, record.parentId);
      if NonEmpty(nodeName) {
        selectedNodeName := nodeName;
      } else {
        selectedNodeName := if record.parentId == 0 then RootName else "";
      }
      showTreeSelection := true;
      visible := true;
    }

    /**
     * `handleTreeNodeSelect`: picking a node of level 2 or deeper is refused with an error; any
     * other pick becomes the parent, takes the node's name when it has one, and sets the type
     * from the level (Menu under a level-0 node, Button under a level-1 node, unchanged if the
     * node is not found).
     */
    method HandleTreeNodeSelect(selectedKeys: seq<int>) returns (msg: Option<Message>)
      modifies this
      ensures selectedKeys == [] ==> msg == None && unchanged(this)
      ensures selectedKeys != [] && FindNodeLevel(old(treeData), selectedKeys[0], 0) >= 2 ==>
                msg == Some(Message(Error, "不能在三级节点下添加节点")) && unchanged(this)
      ensures selectedKeys != [] && FindNodeLevel(old(treeData), selectedKeys[0], 0) < 2 ==>
                var id := selectedKeys[0];
                var level := FindNodeLevel(old(treeData), id, 0);
                var found := FindNodeName(old(treeData), id);
                && msg == None
                && selectedParentId == id
                && selectedNodeName == (if NonEmpty(found) then found else old(selectedNodeName))
                && form == (if level == 0 then old(form).(parentId := Some(id), mtype := Some(MENU))
                            else if level == 1 then old(form).(parentId := Some(id), mtype := Some(BUTTON))
                            else old(form))
                && treeData == old(treeData) && editingId == old(editingId) && isEditMode == old(isEditMode)
                && showTreeSelection == old(showTreeSelection) && visible == old(visible)
      ensures PickerShallow() ==> msg == None
    {
      if selectedKeys == [] {
        return None;
      }
      var selectedNodeId := selectedKeys[0];
      var nodeLevel := FindNodeLevel(treeData, selectedNodeId, 0);
      if PickerShallow() {
        FindNodeLevelIsFirstDepth(treeData, selectedNodeId, 0);
        FirstDepthBound(Entries(treeData, 0), 2, selectedNodeId);
      }
      if nodeLevel >= 2 {
        return Some(Message(Error, "不能在三级节点下添加节点"));
      }
      selectedParentId := selectedNodeId;
      var nodeName := FindNodeName(treeData, selectedNodeId);
      if NonEmpty(nodeName) {
        selectedNodeName := nodeName;
      }
      if nodeLevel == 0 {
        form := form.(parentId := Some(selectedNodeId), mtype := Some(MENU));
      } else if nodeLevel == 1 {
        form := form.(parentId := Some(selectedNodeId), mtype := Some(BUTTON));
      }
      msg := None;
    }

    /**
     * The user picks `value` in the type radio group; `onTypeChange` then attaches a Catalog to
     * the root.
     */
    method OnTypeChange(value: int)
      modifies this
      ensures value == CATALOG ==> form == old(form).(mtype := Some(value), parentId := Some(0))
                                   && selectedParentId == 0 && selectedNodeName == RootName
      ensures value != CATALOG ==> form == old(form).(mtype := Some(value))
                                   && selectedParentId == old(selectedParentId)
                                   && selectedNodeName == old(selectedNodeName)
      ensures treeData == old(treeData) && editingId == old(editingId) && isEditMode == old(isEditMode)
      ensures showTreeSelection == old(showTreeSelection) && visible == old(visible)
    {
      form := form.(mtype := Some(value));
      if value == CATALOG {
        form := form.(parentId := Some(0));
        selectedParentId := 0;
        selectedNodeName := RootName;
      }
    }

    /**
     * `handleOk`: with the required name filled in, the values go out with the selected parent,
     * as an update of `editingId` when that is truthy and as an addition otherwise. `saved` is
     * the outcome of the service call. Success closes the dialog and the picker; failure, or
     * an invalid form, reports "Form validation failed" and leaves the state as it was.
     */
    method HandleOk(saved: bool) returns (req: Option<MenuRequest>, msg: Message)
      modifies this
      ensures !NonEmpty(old(form).name) ==> req == None
      ensures NonEmpty(old(form).name) ==> req == Some(
        if Truthy(old(editingId)) then UpdateMenu(old(form), old(selectedParentId), old(editingId).value)
        else AddMenu(old(form), old(selectedParentId)))
      ensures NonEmpty(old(form).name) && saved ==>
                msg == Message(Success, if Truthy(old(editingId)) then "Updated" else "Added")
                && !showTreeSelection && !isEditMode && !visible
      ensures !(NonEmpty(old(form).name) && saved) ==>
                msg == Message(Error, "Form validation failed")
                && showTreeSelection == old(showTreeSelection) && isEditMode == old(isEditMode)
                && visible == old(visible)
      ensures treeData == old(treeData) && selectedParentId == old(selectedParentId)
      ensures selectedNodeName == old(selectedNodeName) && editingId == old(editingId) && form == old(form)
    {
      if !NonEmpty(form.name) {
        req := None;
        msg := Message(Error, "Form validation failed");
        return;
      }
      if Truthy(editingId) {
        req := Some(UpdateMenu(form, selectedParentId, editingId.value));
      } else {
        req := Some(AddMenu(form, selectedParentId));
      }
      if saved {
        msg := Message(Success, if Truthy(editingId) then "Updated" else "Added");
        showTreeSelection := false;
        isEditMode := false;
        visible := false;
      } else {
        msg := Message(Error, "Form validation failed");
      }
    }
  }
}
