/**
 * The in-memory mock backend: the `db` arrays of users, roles and menus with their save and
 * delete operations, the login that issues `mock-token-<userId>`, the `getUserInfo` that reads
 * the id back out of the token, the user list with role names, and the menu tree.
 */
module Mock {
  import opened Wrappers
  import opened Records
  import opened Seqs
  import opened Decimal
  import opened Hierarchy
  import opened MenuService
  import opened AuthContext

  // ---------------------------------------------------------------------------------------------
  // Seed data

  /** The seed users; they carry the key `userName`, not `username`. */
  const InitialUsers: seq<User> := [
    User(1, None, Some("admin"), Some("password"), "Administrator", "admin@example.com", "13800138000", 1, 1, "2023-01-01 00:00:00"),
    User(2, None, Some("user"), Some("password"), "Regular User", "user@example.com", "13900139000", 1, 2, "2023-01-02 00:00:00")
  ]

  const InitialRoles: seq<Role> := [
    Role(1, "Admin", "Super Administrator", 1, [1, 2, 3, 4, 5], "2023-01-01 00:00:00"),
    Role(2, "Editor", "Content Editor", 1, [1], "2023-01-02 00:00:00")
  ]

  const InitialMenus: seq<MenuItem> := [
    MenuItem(1, 0, "Dashboard", "/dashboard", "", MENU, "DashboardOutlined", 1),
    MenuItem(2, 0, "System Management", "/system", "system:list", CATALOG, "SettingOutlined", 2),
    MenuItem(3, 2, "User Management", "/system/user", "user:list", MENU, "UserOutlined", 1),
    MenuItem(4, 2, "Role Management", "/system/role", "role:list", MENU, "TeamOutlined", 2),
    MenuItem(5, 2, "Menu Management", "/system/menu", "menu:list", MENU, "MenuOutlined", 3)
  ]

  // ---------------------------------------------------------------------------------------------
  // Saved objects and the field merge `{ ...stored, ...sent }`

  /** A user object as sent to `saveUser`: each field may be absent. */
  datatype UserPatch = UserPatch(
    userId: Option<int>,
    username: Option<string>,
    password: Option<string>,
    realName: Option<string>,
    email: Option<string>,
    mobile: Option<string>,
    status: Option<int>,
    roleId: Option<int>)

  /** A role object as sent to `saveRole`. */
  datatype RolePatch = RolePatch(
    roleId: Option<int>,
    roleName: Option<string>,
    roleDesc: Option<string>,
    status: Option<int>,
    menuIds: Option<seq<int>>)

  /** A menu object as sent to `saveMenu`. */
  datatype MenuPatch = MenuPatch(
    menuId: Option<int>,
    parentId: Option<int>,
    name: Option<string>,
    url: Option<string>,
    perms: Option<string>,
    mtype: Option<int>,
    icon: Option<string>,
    orderNum: Option<int>)

  function Or<T>(o: Option<T>, d: T): T
  {
    if o.Some? then o.value else d
  }

  /** An optional field of the stored object overwritten by the sent one when that is present. */
  function Over<T>(sent: Option<T>, stored: Option<T>): Option<T>
  {
    if sent.Some? then sent else stored
  }

  function MergeUser(u: User, p: UserPatch): User
  {
    User(Or(p.userId, u.userId), Over(p.username, u.username), u.userName, Over(p.password, u.password),
         Or(p.realName, u.realName), Or(p.email, u.email), Or(p.mobile, u.mobile),
         Or(p.status, u.status), Or(p.roleId, u.roleId), u.createTime)
  }

  function MergeRole(r: Role, p: RolePatch): Role
  {
    Role(Or(p.roleId, r.roleId), Or(p.roleName, r.roleName), Or(p.roleDesc, r.roleDesc),
         Or(p.status, r.status), Or(p.menuIds, r.menuIds), r.createTime)
  }

  function MergeMenu(m: MenuItem, p: MenuPatch): MenuItem
  {
    MenuItem(Or(p.menuId, m.menuId), Or(p.parentId, m.parentId), Or(p.name, m.name), Or(p.url, m.url),
             Or(p.perms, m.perms), Or(p.mtype, m.mtype), Or(p.icon, m.icon), Or(p.orderNum, m.orderNum))
  }

  /** The user patch that sends nothing. */
  const NoUserFields := UserPatch(None, None, None, None, None, None, None, None)

  /** Merging is idempotent and an empty patch changes nothing. */
  lemma MergeUserLaws(u: User, p: UserPatch)
    ensures MergeUser(MergeUser(u, p), p) == MergeUser(u, p)
    ensures MergeUser(u, NoUserFields) == u
    ensures MergeUser(u, p).createTime == u.createTime && MergeUser(u, p).userName == u.userName
  {
  }

  lemma MergeRoleLaws(r: Role, p: RolePatch)
    ensures MergeRole(MergeRole(r, p), p) == MergeRole(r, p)
    ensures MergeRole(r, RolePatch(None, None, None, None, None)) == r
    ensures MergeRole(r, p).createTime == r.createTime
  {
  }

  lemma MergeMenuLaws(m: MenuItem, p: MenuPatch)
    ensures MergeMenu(MergeMenu(m, p), p) == MergeMenu(m, p)
    ensures MergeMenu(m, MenuPatch(None, None, None, None, None, None, None, None)) == m
  {
  }

  /**
   * `{ ...user, userId: Date.now(), createTime: now, status: 1 }`: the fresh id and the time are
   * given; a field the object lacks is empty (0 for numbers).
   */
  function NewUser(p: UserPatch, freshId: int, now: string): (u: User)
    ensures u.userId == freshId && u.status == 1 && u.createTime == now && u.username == p.username
  {
    User(freshId, p.username, None, p.password, Or(p.realName, ""), Or(p.email, ""), Or(p.mobile, ""),
         1, Or(p.roleId, 0), now)
  }

  /** `{ ...role, roleId: Date.now(), createTime: now, status: 1 }`. */
  function NewRole(p: RolePatch, freshId: int, now: string): (r: Role)
    ensures r.roleId == freshId && r.status == 1 && r.createTime == now && r.menuIds == Or(p.menuIds, [])
  {
    Role(freshId, Or(p.roleName, ""), Or(p.roleDesc, ""), 1, Or(p.menuIds, []), now)
  }

  /** `{ ...menu, menuId: Date.now(), orderNum: menu.orderNum || 0 }`. */
  function NewMenu(p: MenuPatch, freshId: int): (m: MenuItem)
    ensures m.menuId == freshId
    ensures m.orderNum == (if Truthy(p.orderNum) then p.orderNum.value else 0)
  {
    MenuItem(freshId, Or(p.parentId, 0), Or(p.name, ""), Or(p.url, ""), Or(p.perms, ""), Or(p.mtype, 0),
             Or(p.icon, ""), if Truthy(p.orderNum) then p.orderNum.value else 0)
  }

  function UserIndex(users: seq<User>, id: int): (r: int)
    ensures -1 <= r < |users|
    ensures r >= 0 ==> users[r].userId == id && forall j :: 0 <= j < r ==> users[j].userId != id
    ensures r == -1 <==> forall j :: 0 <= j < |users| ==> users[j].userId != id
  {
    FirstIndex(users, (u: User) => u.userId == id)
  }

  function RoleIndex(roles: seq<Role>, id: int): (r: int)
    ensures -1 <= r < |roles|
    ensures r >= 0 ==> roles[r].roleId == id && forall j :: 0 <= j < r ==> roles[j].roleId != id
    ensures r == -1 <==> forall j :: 0 <= j < |roles| ==> roles[j].roleId != id
  {
    FirstIndex(roles, (x: Role) => x.roleId == id)
  }

  function MenuIndex(menus: seq<MenuItem>, id: int): (r: int)
    ensures -1 <= r < |menus|
    ensures r >= 0 ==> menus[r].menuId == id && forall j :: 0 <= j < r ==> menus[j].menuId != id
    ensures r == -1 <==> forall j :: 0 <= j < |menus| ==> menus[j].menuId != id
  {
    FirstIndex(menus, (m: MenuItem) => m.menuId == id)
  }

  // ---------------------------------------------------------------------------------------------
  // Queries

  /** `db.roles.find(r => r.roleId === id)`. */
  function FindRole(roles: seq<Role>, id: int): (r: Option<Role>)
    ensures r.Some? <==> exists j :: 0 <= j < |roles| && roles[j].roleId == id
    ensures r.Some? ==> r.value in roles && r.value.roleId == id
    ensures r.Some? ==> r.value == roles[RoleIndex(roles, id)]
  {
    var k := RoleIndex(roles, id);
    if k < 0 then None else Some(roles[k])
  }

  /** What `login` resolves with: the user and the token. */
  datatype LoginOk = LoginOk(user: User, token: string)

  const TokenPrefix := "mock-token-"

  function TokenFor(userId: int): string
  {
    TokenPrefix + IntToString(userId)
  }

  /**
   * `login(username, password)`: the first user whose `username` and `password` match; a
   * disabled one is refused.
   */
  function Login(users: seq<User>, username: string, password: string): (r: Result<LoginOk, string>)
    ensures r.Ok? <==> exists j :: 0 <= j < |users| && users[j].username == Some(username)
                        && users[j].password == Some(password) && users[j].status != 0
                        && forall i :: 0 <= i < j ==> !(users[i].username == Some(username) && users[i].password == Some(password))
    ensures r.Ok? ==> r.value.user in users && r.value.user.username == Some(username)
                      && r.value.token == TokenFor(r.value.user.userId)
    ensures r.Ok? ==> exists j :: 0 <= j < |users| && r.value.user == users[j]
                        && users[j].username == Some(username) && users[j].password == Some(password)
                        && forall i :: 0 <= i < j ==> !(users[i].username == Some(username) && users[i].password == Some(password))
    ensures r == Err("Account is disabled") <==>
              exists j :: 0 <= j < |users| && users[j].username == Some(username)
                && users[j].password == Some(password) && users[j].status == 0
                && forall i :: 0 <= i < j ==> !(users[i].username == Some(username) && users[i].password == Some(password))
    ensures r == Err("Invalid username or password") <==>
              forall j :: 0 <= j < |users| ==> !(users[j].username == Some(username) && users[j].password == Some(password))
    ensures r.Err? ==> r.error in {"Account is disabled", "Invalid username or password"}
  {
    var k := FirstIndex(users, (u: User) => u.username == Some(username) && u.password == Some(password));
    if k < 0 then Err("Invalid username or password")
    else if users[k].status == 0 then Err("Account is disabled")
    else Ok(LoginOk(users[k], TokenFor(users[k].userId)))
  }

  /**
   * `getUserInfo(token)`: the user whose id is the number in the third `-`-separated piece of
   * the token, with the first role of that user's `roleId`.
   */
  function GetUserInfo(users: seq<User>, roles: seq<Role>, token: string): (r: Result<UserInfo, string>)
    ensures var parts := Split(token, '-');
            r.Ok? <==> |parts| >= 3 && ParseInt(parts[2]).Some? && UserIndex(users, ParseInt(parts[2]).value) >= 0
    ensures r.Ok? ==> r.value.user == users[UserIndex(users, ParseInt(Split(token, '-')[2]).value)]
    ensures r.Ok? ==> r.value.user in users && r.value.role == FindRole(roles, r.value.user.roleId)
    ensures r.Err? ==> r.error == "Invalid token"
  {
    var parts := Split(token, '-');
    var id := if |parts| >= 3 then ParseInt(parts[2]) else None;
    if id.None? then Err("Invalid token")
    else
      var k := UserIndex(users, id.value);
      if k < 0 then Err("Invalid token") else Ok(UserInfo(users[k], FindRole(roles, users[k].roleId)))
  }

  /** A user list entry: the user with the name of their role. */
  datatype UserRow = UserRow(user: User, roleName: string)

  /** `roles.find(...)?.roleName || 'N/A'`. */
  function RoleNameFor(roles: seq<Role>, roleId: int): (name: string)
    ensures NonEmpty(name)
    ensures name != "N/A" ==> FindRole(roles, roleId).Some? && name == FindRole(roles, roleId).value.roleName
    ensures FindRole(roles, roleId).Some? && NonEmpty(FindRole(roles, roleId).value.roleName) ==>
              name == FindRole(roles, roleId).value.roleName
  {
    var role := FindRole(roles, roleId);
    if role.Some? && NonEmpty(role.value.roleName) then role.value.roleName else "N/A"
  }

  /** `getUsers()`: one row per user, in order, each with its role name or 'N/A'. */
  function GetUsers(users: seq<User>, roles: seq<Role>): (rows: seq<UserRow>)
    ensures |rows| == |users|
    ensures forall i :: 0 <= i < |users| ==> rows[i].user == users[i] && NonEmpty(rows[i].roleName)
    ensures forall i :: 0 <= i < |users| && FindRole(roles, users[i].roleId).None? ==> rows[i].roleName == "N/A"
  {
    seq(|users|, i requires 0 <= i < |users| => UserRow(users[i], RoleNameFor(roles, users[i].roleId)))
  }

  /**
   * `getMenuTree()`: the same filter/map builder as the menu service; the top level is the
   * records with parent 0, each node's children are the records under it, and every node is a
   * copy of a record whose parent chain reaches 0.
   */
  function GetMenuTree(menus: seq<MenuItem>): (t: seq<TreeNode>)
    requires UniqueIds(menus) && NonZeroIds(menus)
    ensures Items(t) == WithParent(menus, 0)
    ensures forall n :: n in Nodes(t) ==> NodeOk(menus, n) && RootedItem(menus, n.item)
  {
    BuildTree(menus)
  }

  // ---------------------------------------------------------------------------------------------
  // Token round trip

  /** The token of an id in plain digits splits into `mock`, `token` and those digits. */
  lemma TokenPieces(userId: nat)
    requires userId < PlainDigitsBound
    ensures Split(TokenFor(userId), '-') == ["mock", "token", NatToString(userId)]
  {
    var d := NatToString(userId);
    assert '-' !in d by {
      forall i | 0 <= i < |d| ensures d[i] != '-' {
        assert IsDigit(d[i]);
      }
    }
    assert TokenFor(userId) == "mock" + ['-'] + ("token" + ['-'] + d);
    SplitAfter("mock", "token" + ['-'] + d, '-');
    SplitAfter("token", d, '-');
    SplitNoSep(d, '-');
  }

  /** No two users share a `userId`. */
  ghost predicate UniqueUserIds(users: seq<User>)
  {
    forall i, j :: 0 <= i < |users| && 0 <= j < |users| && users[i].userId == users[j].userId ==> i == j
  }

  /** Reading the token of a non-negative id in plain digits looks that id up. */
  lemma ResolveToken(users: seq<User>, roles: seq<Role>, userId: nat)
    requires userId < PlainDigitsBound
    ensures var k := UserIndex(users, userId);
            GetUserInfo(users, roles, TokenFor(userId))
              == if k < 0 then Err("Invalid token") else Ok(UserInfo(users[k], FindRole(roles, users[k].roleId)))
  {
    TokenPieces(userId);
    ParseRendered(userId);
  }

  /**
   * A token issued by `login` to a user with a non-negative id in plain digits resolves to the
   * first user with that id, with its role; when user ids are unique that is the user who
   * logged in.
   */
  lemma LoginTokenRoundTrip(users: seq<User>, roles: seq<Role>, username: string, password: string)
    requires Login(users, username, password).Ok?
    requires 0 <= Login(users, username, password).value.user.userId < PlainDigitsBound
    ensures var k := UserIndex(users, Login(users, username, password).value.user.userId);
            && k >= 0
            && GetUserInfo(users, roles, Login(users, username, password).value.token)
                 == Ok(UserInfo(users[k], FindRole(roles, users[k].roleId)))
    ensures UniqueUserIds(users) ==>
              GetUserInfo(users, roles, Login(users, username, password).value.token)
                == Ok(UserInfo(Login(users, username, password).value.user,
                               FindRole(roles, Login(users, username, password).value.user.roleId)))
  {
    var ok := Login(users, username, password).value;
    var u := ok.user;
    ResolveToken(users, roles, u.userId);
    var j :| 0 <= j < |users| && users[j] == u;
    var k := UserIndex(users, u.userId);
    assert users[j].userId == u.userId;
  }

  /** The token of a user with a negative id has an empty third piece and never resolves. */
  lemma NegativeIdTokenInvalid(users: seq<User>, roles: seq<Role>, userId: int)
    requires userId < 0
    ensures GetUserInfo(users, roles, TokenFor(userId)).Err?
  {
    var d := NatToString(-userId);
    assert TokenFor(userId) == "mock" + ['-'] + ("token" + ['-'] + ([] + ['-'] + d));
    SplitAfter("mock", "token" + ['-'] + ([] + ['-'] + d), '-');
    SplitAfter("token", [] + ['-'] + d, '-');
    SplitAfter([], d, '-');
    assert Split(TokenFor(userId), '-')[2] == "";
  }

  /** No user name and password logs a seed user in: they have no `username` field. */
  lemma SeedUsersCannotLogIn(username: string, password: string)
    ensures Login(InitialUsers, username, password) == Err("Invalid username or password")
  {
  }

  /** The seed menus have unique non-zero ids, so the tree builder accepts them. */
  lemma SeedMenuIds()
    ensures UniqueIds(InitialMenus) && NonZeroIds(InitialMenus)
  {
    assert forall i :: 0 <= i < |InitialMenus| ==> InitialMenus[i].menuId == i + 1;
  }

  /** Filtering the menus keeps their ids unique and non-zero. */
  lemma {:induction false} KeepMenuIds(menus: seq<MenuItem>, p: MenuItem -> bool)
    requires UniqueIds(menus) && NonZeroIds(menus)
    ensures UniqueIds(Keep(menus, p)) && NonZeroIds(Keep(menus, p))
  {
    if menus != [] {
      var rest := menus[1..];
      assert UniqueIds(rest) by {
        forall i, j | 0 <= i < |rest| && 0 <= j < |rest| && rest[i].menuId == rest[j].menuId
          ensures i == j
        {
          assert menus[i + 1] == rest[i] && menus[j + 1] == rest[j];
        }
      }
      KeepMenuIds(rest, p);
      if p(menus[0]) {
        var kept := Keep(rest, p);
        KeepMembers(rest, p);
        forall j | 0 <= j < |kept|
          ensures kept[j].menuId != menus[0].menuId
        {
          assert kept[j] in rest;
          var k :| 0 <= k < |rest| && rest[k] == kept[j];
          assert menus[k + 1] == kept[j];
        }
        var r := [menus[0]] + kept;
        assert forall j :: 1 <= j < |r| ==> r[j] == kept[j - 1];
      }
    }
  }

  /** An appended menu with a fresh non-zero id keeps the ids unique and non-zero. */
  lemma AppendMenuIds(menus: seq<MenuItem>, m: MenuItem)
    requires UniqueIds(menus) && NonZeroIds(menus)
    requires m.menuId != 0 && forall x :: x in menus ==> x.menuId != m.menuId
    ensures UniqueIds(menus + [m]) && NonZeroIds(menus + [m])
  {
    var r := menus + [m];
    forall i | 0 <= i < |menus| ensures r[i] == menus[i] && r[i].menuId != m.menuId {
      assert menus[i] in menus;
    }
  }

  /** Merging a patch into the record its `menuId` names leaves every id in place. */
  lemma MergeMenuIds(menus: seq<MenuItem>, p: MenuPatch, k: int)
    requires UniqueIds(menus) && NonZeroIds(menus)
    requires p.menuId.Some? && 0 <= k < |menus| && menus[k].menuId == p.menuId.value
    ensures UniqueIds(menus[k := MergeMenu(menus[k], p)]) && NonZeroIds(menus[k := MergeMenu(menus[k], p)])
  {
    var r := menus[k := MergeMenu(menus[k], p)];
    assert forall i :: 0 <= i < |r| ==> r[i].menuId == menus[i].menuId;
  }

  // ---------------------------------------------------------------------------------------------
  // The store

  /** The `db` object and its arrays. */
  class MockDb {
    var users: seq<User>
    var roles: seq<Role>
    var menus: seq<MenuItem>

    /** `load(key, initial)` for each array: what the storage holds, else the seed data. */
    constructor(storedUsers: Option<seq<User>>, storedRoles: Option<seq<Role>>, storedMenus: Option<seq<MenuItem>>)
      ensures users == Or(storedUsers, InitialUsers)
      ensures roles == Or(storedRoles, InitialRoles)
      ensures menus == Or(storedMenus, InitialMenus)
    {
      users := Or(storedUsers, InitialUsers);
      roles := Or(storedRoles, InitialRoles);
      menus := Or(storedMenus, InitialMenus);
    }

    /**
     * `saveUser(user)`. With a truthy `userId` the first user with that id is merged with the
     * sent fields, in place; when no user has it, the store keeps its records (the assignment
     * lands on index -1, which is no array element). Without one, a new active user with the
     * given `freshId` and `now` is appended.
     */
    method SaveUser(p: UserPatch, freshId: int, now: string) returns (ok: bool)
      modifies this
      ensures ok
      ensures Truthy(p.userId) ==>
                var k := UserIndex(old(users), p.userId.value);
                && |users| == |old(users)|
                && (k >= 0 ==> users[k] == MergeUser(old(users)[k], p))
                && forall j :: 0 <= j < |users| && j != k ==> users[j] == old(users)[j]
      ensures !Truthy(p.userId) ==> users == old(users) + [NewUser(p, freshId, now)]
      ensures roles == old(roles) && menus == old(menus)
    {
      if Truthy(p.userId) {
        var k := UserIndex(users, p.userId.value);
        if k >= 0 {
          users := users[k := MergeUser(users[k], p)];
        }
      } else {
        users := users + [NewUser(p, freshId, now)];
      }
      ok := true;
    }

    /** `deleteUser(id)`: every user with that id goes, the others stay in order. */
    method DeleteUser(id: int) returns (ok: bool)
      modifies this
      ensures ok
      ensures users == Keep(old(users), (u: User) => u.userId != id)
      ensures forall u :: u in users <==> u in old(users) && u.userId != id
      ensures roles == old(roles) && menus == old(menus)
    {
      users := Keep(users, (u: User) => u.userId != id);
      KeepMembers(old(users), (u: User) => u.userId != id);
      ok := true;
    }

    /** `saveRole(role)`, like `saveUser`. */
    method SaveRole(p: RolePatch, freshId: int, now: string) returns (ok: bool)
      modifies this
      ensures ok
      ensures Truthy(p.roleId) ==>
                var k := RoleIndex(old(roles), p.roleId.value);
                && |roles| == |old(roles)|
                && (k >= 0 ==> roles[k] == MergeRole(old(roles)[k], p))
                && forall j :: 0 <= j < |roles| && j != k ==> roles[j] == old(roles)[j]
      ensures !Truthy(p.roleId) ==> roles == old(roles) + [NewRole(p, freshId, now)]
      ensures users == old(users) && menus == old(menus)
    {
      if Truthy(p.roleId) {
        var k := RoleIndex(roles, p.roleId.value);
        if k >= 0 {
          roles := roles[k := MergeRole(roles[k], p)];
        }
      } else {
        roles := roles + [NewRole(p, freshId, now)];
      }
      ok := true;
    }

    /** `deleteRole(id)`. */
    method DeleteRole(id: int) returns (ok: bool)
      modifies this
      ensures ok
      ensures roles == Keep(old(roles), (r: Role) => r.roleId != id)
      ensures forall r :: r in roles <==> r in old(roles) && r.roleId != id
      ensures users == old(users) && menus == old(menus)
    {
      roles := Keep(roles, (r: Role) => r.roleId != id);
      KeepMembers(old(roles), (r: Role) => r.roleId != id);
      ok := true;
    }

    /** `saveMenu(menu)`; a new menu gets `orderNum` 0 unless a non-zero one was sent. */
    method SaveMenu(p: MenuPatch, freshId: int) returns (ok: bool)
      modifies this
      ensures ok
      ensures Truthy(p.menuId) ==>
                var k := MenuIndex(old(menus), p.menuId.value);
                && |menus| == |old(menus)|
                && (k >= 0 ==> menus[k] == MergeMenu(old(menus)[k], p))
                && forall j :: 0 <= j < |menus| && j != k ==> menus[j] == old(menus)[j]
      ensures !Truthy(p.menuId) ==> menus == old(menus) + [NewMenu(p, freshId)]
      ensures users == old(users) && roles == old(roles)
      ensures old(UniqueIds(menus) && NonZeroIds(menus))
              && (!Truthy(p.menuId) ==> freshId != 0 && forall m :: m in old(menus) ==> m.menuId != freshId)
              ==> UniqueIds(menus) && NonZeroIds(menus)
    {
      if Truthy(p.menuId) {
        var k := MenuIndex(menus, p.menuId.value);
        if k >= 0 {
          if UniqueIds(menus) && NonZeroIds(menus) {
            MergeMenuIds(menus, p, k);
          }
          menus := menus[k := MergeMenu(menus[k], p)];
        }
      } else {
        if UniqueIds(menus) && NonZeroIds(menus) && freshId != 0 && forall m :: m in menus ==> m.menuId != freshId {
          AppendMenuIds(menus, NewMenu(p, freshId));
        }
        menus := menus + [NewMenu(p, freshId)];
      }
      ok := true;
    }

    /** `deleteMenu(id)`: the menu and its direct children go; deeper descendants stay. */
    method DeleteMenu(id: int) returns (ok: bool)
      modifies this
      ensures ok
      ensures menus == Keep(old(menus), (m: MenuItem) => m.menuId != id && m.parentId != id)
      ensures forall m :: m in menus <==> m in old(menus) && m.menuId != id && m.parentId != id
      ensures users == old(users) && roles == old(roles)
      ensures old(UniqueIds(menus) && NonZeroIds(menus)) ==> UniqueIds(menus) && NonZeroIds(menus)
    {
      if UniqueIds(menus) && NonZeroIds(menus) {
        KeepMenuIds(menus, (m: MenuItem) => m.menuId != id && m.parentId != id);
      }
      menus := Keep(menus, (m: MenuItem) => m.menuId != id && m.parentId != id);
      KeepMembers(old(menus), (m: MenuItem) => m.menuId != id && m.parentId != id);
      ok := true;
    }
  }

  /**
   * Deleting menu `id` keeps every grandchild `g` of it, while no kept record has the id of its
   * parent `c` any more: `g` becomes an orphan.
   */
  lemma DeleteMenuOrphans(menus: seq<MenuItem>, id: int, c: MenuItem, g: MenuItem)
    requires UniqueIds(menus)
    requires c in menus && c.parentId == id && c.menuId != id
    requires g in menus && g.parentId == c.menuId && g.menuId != id
    ensures var kept := Keep(menus, (m: MenuItem) => m.menuId != id && m.parentId != id);
            g in kept && forall m :: m in kept ==> m.menuId != g.parentId
  {
    var p := (m: MenuItem) => m.menuId != id && m.parentId != id;
    KeepMembers(menus, p);
    forall m | m in Keep(menus, p)
      ensures m.menuId != g.parentId
    {
      var i :| 0 <= i < |menus| && menus[i] == m;
      var j :| 0 <= j < |menus| && menus[j] == c;
    }
  }

  /**
   * Deleting a menu leaves its grandchildren behind as orphans: deleting the root of the chain
   * 1 -> 2 -> 3 keeps only record 3, whose parent 2 is gone.
   */
  lemma DeleteMenuOrphansGrandchildren()
    ensures var a := MenuItem(1, 0, "A", "/a", "", CATALOG, "", 0);
            var b := MenuItem(2, 1, "B", "/b", "", CATALOG, "", 0);
            var c := MenuItem(3, 2, "C", "/c", "", MENU, "", 0);
            Keep([a, b, c], (m: MenuItem) => m.menuId != 1 && m.parentId != 1) == [c]
  {
    var a := MenuItem(1, 0, "A", "/a", "", CATALOG, "", 0);
    var b := MenuItem(2, 1, "B", "/b", "", CATALOG, "", 0);
    var c := MenuItem(3, 2, "C", "/c", "", MENU, "", 0);
    var p := (m: MenuItem) => m.menuId != 1 && m.parentId != 1;
    assert [a, b, c][1..] == [b, c] && [b, c][1..] == [c] && [c][1..] == [];
    assert Keep([c], p) == [c];
    assert Keep([b, c], p) == [c];
    assert Keep([a, b, c], p) == [c];
  }
}
