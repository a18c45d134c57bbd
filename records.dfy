/**
 * The records the backend (and the in-browser mock store) hands to the console: menu/permission
 * nodes, roles and users. JavaScript numbers are modelled as `int`, strings as `string`; a field
 * that a record may lack is an `Option`.
 */
module Records {
  import opened Wrappers

  /** Menu kinds, as stored in the `type` field. */
  const CATALOG: int := 0
  const MENU: int := 1
  const BUTTON: int := 2

  /**
   * One flat menu/permission record. `parentId == 0` marks a root; `url` and `perms` are empty for
   * pure containers; `icon` is a symbolic icon name ("" when the record has none).
   */
  datatype MenuItem = MenuItem(
    menuId: int,
    parentId: int,
    name: string,
    url: string,
    perms: string,
    mtype: int,
    icon: string,
    orderNum: int)

  /** A role; by contract `menuIds` is the full ancestor closure of the granted permissions. */
  datatype Role = Role(
    roleId: int,
    roleName: string,
    roleDesc: string,
    status: int,
    menuIds: seq<int>,
    createTime: string)

  /**
   * A user. The login form and the user form use the key `username`; the seed users of the mock
   * store carry `userName` instead, so both keys are kept, each possibly absent.
   */
  datatype User = User(
    userId: int,
    username: Option<string>,
    userName: Option<string>,
    password: Option<string>,
    realName: string,
    email: string,
    mobile: string,
    status: int,
    roleId: int,
    createTime: string)

  /** A toast shown through the message helper: its kind and its (symbolic or literal) text. */
  datatype Severity = Success | Info | Warning | Error
  datatype Message = Message(severity: Severity, text: string)

  /** JavaScript truthiness of an optional number: present and non-zero. */
  predicate Truthy(o: Option<int>)
  {
    o.Some? && o.value != 0
  }

  /** JavaScript truthiness of a string: non-empty. */
  predicate NonEmpty(s: string)
  {
    |s| > 0
  }

  /** The records of `all` whose `parentId` is `p`, in input order. */
  function WithParent(all: seq<MenuItem>, p: int): (r: seq<MenuItem>)
    ensures forall x :: x in r <==> x in all && x.parentId == p
    ensures |r| <= |all|
  {
    if all == [] then []
    else (if all[0].parentId == p then [all[0]] else []) + WithParent(all[1..], p)
  }

  /** No two records share a `menuId`. */
  ghost predicate UniqueIds(all: seq<MenuItem>)
  {
    forall i, j :: 0 <= i < |all| && 0 <= j < |all| && all[i].menuId == all[j].menuId ==> i == j
  }

  /** No record uses the root marker 0 as its own id. */
  ghost predicate NonZeroIds(all: seq<MenuItem>)
  {
    forall i :: 0 <= i < |all| ==> all[i].menuId != 0
  }
}
