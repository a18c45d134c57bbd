# ReactAdminFront: menu and permission core, modelled in Dafny

ReactAdminFront is a React admin console. It manages users, roles and a menu hierarchy.

**Menus.** Menu records (Catalog, Menu or Button) form a forest through their `parentId`.

**Roles.** A role holds the ids of the menus it grants. The permission codes of a session follow from those menus.

**What this project models:**
- the logic behind that hierarchy: the two forest builders, the role editor's permission closure and leaf extraction, and the menu editor's two-level parent picker;
- how the navigation menu, the session's permission list and the permission checks derive from it;
- the route conversion and route selection;
- the mock record store with its login token;
- the HTTP client's response-code classification.

Stateful parts are classes with `modifies` clauses: page state, the auth context, the mock `db`, the route loader and the request configuration. Pure parts are datatypes, functions and lemmas.

**Modules:**
- **Shared modules:**
  - `Wrappers`: `Option` and `Result`.
  - `Records`: the entities, plus JavaScript truthiness of values that may be absent.
  - `Seqs`: `filter`, `findIndex` and subsequence.
  - `Decimal`: number-to-string conversion, `parseInt` and `split`.
  - `Hierarchy`: the ancestor chains that make a parent-id recursion terminate.
  - `Pagination`: the serial-number formula.
- **One module per source file:** `MenuService`, `MenuUtil`, `RoleList`, `MenuList`, `MainLayout`, `AuthContext`, `PermissionUtil`, `UserList`, `Mock`, `App`, `DynamicRouter` and `ApiClient`.

**Conventions:**
- Message boxes are returned as `Message(severity, text)` values.
- Fetched lists, stored tokens, the outcome of backend calls, fresh ids and timestamps are parameters.
- The recursive `parentId === parentId` filters do not terminate when an id repeats along an ancestor chain. `BuildTree`, `GetMenuTree` and `GetMenuItems` require unique, non-zero `menuId`s instead. This simple condition rules out every such chain, but it also rules out some inputs on which the recursion ends (see "## Left out"). The seed menus meet it (`Mock.SeedMenuIds`). The mock store's `saveMenu` and `deleteMenu` keep it (`Mock.MockDb.SaveMenu`, `Mock.MockDb.DeleteMenu`), given a fresh non-zero id for a new menu.

## Model

| member | source | states |
|---|---|---|
| Records.WithParent | src/service/menuService.js:34 | the records whose `parentId` is `p`, every one of them and nothing else |
| MenuService.BuildTree | src/service/menuService.js:32-42 | the top level copies exactly the records with `parentId` 0, in input order; each node is its record with `key = menuId`, `title = name`; each node's children are copies of exactly the records whose `parentId` is its `menuId`, in input order; every node's record is reachable from a root |
| MenuService.Level | src/service/menuService.js:32-41 | one level of the recursion from position `from`: the records with the given parent, in order, each node well formed and rooted |
| MenuService.BuildTreeComplete | src/service/menuService.js:32-42 | every record whose ancestor chain reaches 0 appears in the tree |
| MenuService.BuildTreeExactlyOnce | src/service/menuService.js:32-42 | such a record appears at exactly one position of the pre-order node list |
| MenuService.BuildTreeDistinct | src/service/menuService.js:32-42 | no two nodes of the tree carry the same `menuId` |
| MenuService.LevelShape | src/service/menuService.js:32-41 | the nodes under a level are pairwise distinct and all lie below that level's ancestor chain |
| MenuService.NodesAppend | src/service/menuService.js:35-40 | the pre-order node list of a concatenated forest is the concatenation of the two lists |
| Hierarchy.ExtendPath | src/service/menuService.js:34-39 | a child of the chain's end is not on the chain; appending it gives a chain with fewer unvisited records, so the recursion terminates |
| Hierarchy.RootPathUnique | src/service/menuService.js:32-41 | with unique non-zero ids, a record has only one ancestor chain down from the top level |
| Hierarchy.RootPathsDiffer | src/service/menuService.js:32-41 | different ancestor chains end at records with different ids |
| MenuUtil.RenameRoundTrip | src/utils/menuUtil.js:4-13 | the rename and its inverse undo each other; `menu_id`, `parent_id` and `order_num` become `menuId`, `parentId` and `orderNum` |
| MenuUtil.RenameAll | src/utils/menuUtil.js:4-13 | one renamed record per input, each renaming back to its input |
| MenuUtil.LastIndexBelow | src/utils/menuUtil.js:25-28 | the position the id map holds for an id: the last record with that id, or none when no record has it |
| MenuUtil.IdMapLast | src/utils/menuUtil.js:25-28 | the map built by the first pass has an entry for an id iff some record has that id, and the entry is the last such position |
| MenuUtil.BuildMenuTree | src/utils/menuUtil.js:20-43 | the nodes are the input objects; every children list starts empty; the roots and each node's children are the positions the specification functions give |
| MenuUtil.TransformMenuToRoutes | src/utils/menuUtil.js:2-18 | the rename followed by the link pass: one node per raw record, roots and children as for `BuildMenuTree` on the renamed records |
| MenuUtil.RootsExact | src/utils/menuUtil.js:31-33 | a position is a root iff its record has `parentId` 0 |
| MenuUtil.RootsIncreasing | src/utils/menuUtil.js:31-33 | roots are in input order |
| MenuUtil.ChildrenExact | src/utils/menuUtil.js:34-38 | a position is a child of node `j` iff its `parentId` is non-zero and the map sends it to `j` |
| MenuUtil.ChildrenIncreasing | src/utils/menuUtil.js:34-37 | children are appended in input order |
| MenuUtil.LinkedAtMostOnce | src/utils/menuUtil.js:31-40 | a node is a root or a child, never both, and a child of at most one parent |
| MenuUtil.OrphanDropped | src/utils/menuUtil.js:35-38 | a node whose `parentId` names no record is neither a root nor anyone's child |
| MenuUtil.LaterDuplicateWins | src/utils/menuUtil.js:27-37 | with a duplicated parent id, the children attach to the later record and not the earlier |
| MenuUtil.RootsMatchParentFilter | src/utils/menuUtil.js:31-33 | the roots are exactly the records the `parentId === 0` filter keeps, in order |
| MenuUtil.ChildrenMatchParentFilter | src/utils/menuUtil.js:34-37 | with unique non-zero ids, a node's children are exactly the records the filter on its `menuId` keeps, so the two builders agree |
| MenuUtil.SlotOfParent | src/utils/menuUtil.js:35 | with unique non-zero ids, the map sends a node to `j` iff its `parentId` is `j`'s `menuId` |
| RoleList.FindPath | src/pages/system/RoleList.jsx:144-161 | a path found for a target ends at the target |
| RoleList.FindPathChain | src/pages/system/RoleList.jsx:144-161 | a found path is the id list of a parent-to-child chain from the top level that ends at the target |
| RoleList.FindPathComplete | src/pages/system/RoleList.jsx:144-161 | no path is found iff the target is not the id of any node |
| RoleList.FindPathExact | src/pages/system/RoleList.jsx:144-161 | with distinct ids, the path found for any node of a chain is that chain's prefix up to the node |
| RoleList.AddAll | src/pages/system/RoleList.jsx:141-150 | adding to the `Set`: old members are kept in order, every new id is a member, no duplicates arise |
| RoleList.Closure | src/pages/system/RoleList.jsx:140-169 | no duplicates; an id belongs iff it is on the found root-to-node path of some input id |
| RoleList.CalculateFullMenuIds | src/pages/system/RoleList.jsx:140-169 | the loop computes the closure |
| RoleList.ClosureOnlyAncestors | src/pages/system/RoleList.jsx:148-166 | every closure member lies on a top-level chain ending at some input id |
| RoleList.ClosureSetBased | src/pages/system/RoleList.jsx:140-169 | the closure depends only on the set of input ids |
| RoleList.ClosureIdempotent | src/pages/system/RoleList.jsx:140-169 | with distinct ids, the closure of the closure has the same members |
| RoleList.ClosureKeeps | src/pages/system/RoleList.jsx:140-169 | every closure member is a member of the closure of the closure |
| RoleList.ClosureAddsNothing | src/pages/system/RoleList.jsx:144-166 | an ancestor of a closure member is already in the closure |
| RoleList.LeafKeysMembers | src/pages/system/RoleList.jsx:175-190 | the leaf keys are exactly the ids of nodes with no children |
| RoleList.KeepSelectedMembers | src/pages/system/RoleList.jsx:180-182 | the filter keeps exactly the selected ids |
| RoleList.LeafKeysAppend | src/pages/system/RoleList.jsx:175-190 | leaf extraction distributes over concatenated forests |
| RoleList.LeafStep | src/pages/system/RoleList.jsx:175-190 | one step of the traversal: a container contributes its subtree's leaves, a leaf its own id |
| RoleList.SelectedStep | src/pages/system/RoleList.jsx:175-190 | the same step restricted to the selected ids |
| RoleList.TraverseSelected | src/pages/system/RoleList.jsx:175-187 | the traversal appends the selected leaves of the forest, in pre-order |
| RoleList.GetLeafMenuIds | src/pages/system/RoleList.jsx:172-191 | the result is exactly the selected leaves in pre-order, never a container |
| RoleList.TraverseAll | src/pages/system/RoleList.jsx:194-204 | the select-all traversal appends every leaf of the forest, in pre-order |
| RoleList.GetAllLeafKeys | src/pages/system/RoleList.jsx:194-207 | every leaf key of the tree, in pre-order |
| RoleList.SelectAllIsLeafExtraction | src/pages/system/RoleList.jsx:193-211 | select-all equals leaf extraction applied to every id of the tree |
| RoleList.LeavesOfClosure | src/pages/system/RoleList.jsx:140-191 | round trip: with distinct ids, the leaves selected by the closure of a set of leaf ids are that set |
| RoleList.EditSaveKeepsIds | src/pages/system/RoleList.jsx:96-137 | editing and then saving a role whose ids are a leaf closure stores the same ids again |
| RoleList.BuiltTreeLaws | src/pages/system/RoleList.jsx:140-191 | on a tree from `BuildTree`, both the round trip and idempotence hold |
| RoleList.DistinctParts | src/pages/system/RoleList.jsx:144-161 | with distinct ids, the first node's id, its subtree and the remaining siblings never share an id |
| RoleList.RoleEditor.constructor | src/pages/system/RoleList.jsx:10-15 | empty dialog state over the loaded permission tree |
| RoleList.RoleEditor.HandleAdd | src/pages/system/RoleList.jsx:58-63 | no edited role, no checked keys, the reset form, the dialog open |
| RoleList.RoleEditor.HandleEdit | src/pages/system/RoleList.jsx:96-104 | the role's id and fields are loaded, and the checked keys are the leaves of its stored ids |
| RoleList.RoleEditor.HandleSelectAll | src/pages/system/RoleList.jsx:193-211 | the checked keys become every leaf of the tree; nothing else changes |
| RoleList.RoleEditor.HandleClearAll | src/pages/system/RoleList.jsx:213-215 | the checked keys become empty; nothing else changes |
| RoleList.RoleEditor.HandleOk | src/pages/system/RoleList.jsx:108-137 | an invalid form sends nothing; otherwise update (when editing) or save, always with the closure of the checked keys; the success or failure toast; the dialog closes only on success |
| Pagination.SerialNo | src/pages/system/UserList.jsx:120-122 | on a proper page, the serial number of a row lies within its page's block of `pageSize` numbers |
| Pagination.SerialInjective | src/pages/system/UserList.jsx:120-122 | different (page, row) pairs get different serial numbers |
| MenuList.FilterToTwoLevels | src/pages/system/MenuList.jsx:82-94 | levels 0 and 1 keep every node |
| MenuList.FilterKeepsTwoLevels | src/pages/system/MenuList.jsx:82-94 | the picker tree's pre-order entries are exactly the original entries of depth below 2 |
| MenuList.FilterDepthBelowTwo | src/pages/system/MenuList.jsx:82-94 | the picker tree holds no node of depth 2 or more |
| MenuList.FindNodeLevelIsFirstDepth | src/pages/system/MenuList.jsx:202-213 | the level found is the depth of the first pre-order node with that key, or -1 |
| MenuList.PickerLevelBelowTwo | src/pages/system/MenuList.jsx:202-221 | on the picker tree the level found is -1, 0 or 1 |
| MenuList.FindNodeNameIsFirst | src/pages/system/MenuList.jsx:130-141 | with named nodes, the name found is the name of the first pre-order node with that key, or empty |
| MenuList.EntriesDepth | src/pages/system/MenuList.jsx:202-213 | the entries of a forest at depth `d` have depth at least `d` |
| MenuList.IconCell | src/pages/system/MenuList.jsx:287-291 | a known icon name is shown as itself; an unknown one shows nothing |
| MenuList.MenuEditor.constructor | src/pages/system/MenuList.jsx:33-45 | the picker tree is the two-level truncation; parent 0, empty name, nothing edited, dialog closed |
| MenuList.MenuEditor.HandleAdd | src/pages/system/MenuList.jsx:101-109 | not in edit mode, reset form, parent reset to root 0 with empty name, picker and dialog open |
| MenuList.MenuEditor.HandleEdit | src/pages/system/MenuList.jsx:111-154 | the record's fields fill the form; its parent becomes the selection; the name is the found parent's name, else the root text for parent 0, else empty |
| MenuList.MenuEditor.HandleTreeNodeSelect | src/pages/system/MenuList.jsx:197-262 | an empty selection changes nothing; level 2 or deeper shows the depth error and changes nothing; otherwise the node becomes the parent, and the type becomes Menu at level 0, Button at level 1, unchanged at -1; on the picker tree the error branch never occurs |
| MenuList.MenuEditor.OnTypeChange | src/pages/system/MenuList.jsx:265-273 | the type is set; Catalog also forces parent 0 and the root name |
| MenuList.MenuEditor.HandleOk | src/pages/system/MenuList.jsx:167-195 | an invalid form sends nothing; otherwise update with `menuId = editingId` when editing, else add, with the selected parent; success closes the dialog, failure shows the error toast |
| MainLayout.IconFor | src/component/MainLayout.jsx:19-41 | a known icon name maps to itself, anything else to `MenuOutlined` |
| MainLayout.Entry | src/component/MainLayout.jsx:39-45 | key is the url, label the name; `children` is absent exactly when there are none, and exactly then `onClick` navigates to the url |
| MainLayout.SortKeepsOrder | src/component/MainLayout.jsx:47 | the sort compares a field the entries lack, so it keeps the input order |
| MainLayout.SortEqualKeys | src/component/MainLayout.jsx:47 | a stable sort under a constant key is the identity |
| MainLayout.MenuItemsArePrunedTree | src/component/MainLayout.jsx:34-50 | the navigation tree is the menu forest with every Button subtree cut off, each node projected to an entry |
| MainLayout.MapLevelIsPrunedLevel | src/component/MainLayout.jsx:34-48 | one level of the recursion equals the pruned, projected level of `BuildTree` |
| MainLayout.PruneItems | src/component/MainLayout.jsx:36 | pruning keeps exactly the non-Button records of a level, in order |
| MainLayout.PruneOrigin | src/component/MainLayout.jsx:36-38 | every node left after pruning comes from a non-Button node whose children were pruned the same way |
| MainLayout.PrunedTreeShape | src/component/MainLayout.jsx:34-38 | no Button appears; the top level is the non-Button records with parent 0; each node's children are the non-Button records under it; every node has its whole chain present |
| MainLayout.ProjectEntries | src/component/MainLayout.jsx:37-45 | each projected entry is a leaf with a click target exactly when its node has no children |
| MainLayout.NonButtons | src/component/MainLayout.jsx:36 | exactly the records whose type is not Button |
| AuthContext.UserMenus | src/context/AuthContext.jsx:34 | at most as many menus as fetched |
| AuthContext.UserMenusMembers | src/context/AuthContext.jsx:34 | a menu is kept iff it was fetched and its id is among the role's ids |
| AuthContext.UserMenusSubsequence | src/context/AuthContext.jsx:34 | the kept menus are in fetched order |
| AuthContext.UserMenusIdempotent | src/context/AuthContext.jsx:34 | filtering twice keeps the same menus |
| AuthContext.Permissions | src/context/AuthContext.jsx:36 | one permission code per menu, in the same order, duplicates and empty codes kept |
| AuthContext.NoRoleNoMenus | src/context/AuthContext.jsx:33-37 | without a role there are no menus and no permissions |
| AuthContext.NothingGranted | src/context/AuthContext.jsx:33-34 | an empty id list keeps no menu |
| AuthContext.SessionPermissions | src/context/AuthContext.jsx:33-36 | a code is held iff some fetched menu granted by the role carries it; one code per granted menu |
| AuthContext.AuthState.constructor | src/context/AuthContext.jsx:14-18 | logged out, no token, no user, no menus, loading |
| AuthContext.AuthState.Logout | src/context/AuthContext.jsx:72-86 | a confirmed logout clears the stored token, the token, the flag, the user and the menus; an unconfirmed one changes nothing |
| AuthContext.AuthState.InitAuth | src/context/AuthContext.jsx:20-44 | with no token nothing changes; otherwise the stored token wins over the parameter, and on success the user and menus are derived from the fetch; a failed fetch logs out; loading ends in every case |
| AuthContext.AuthState.Login | src/context/AuthContext.jsx:52-71 | code 0 stores the token (empty or not), reports success with it and runs the session set-up; the stored token, login flag, user and menus afterwards are given for every set-up outcome, cleared again only when a non-empty token's fetch fails and the logout succeeds; another code reports failure with the backend message; an exception reports its message or the default text; failures change nothing |
| PermissionUtil.CheckPermission | src/utils/permissionUtil.js:35-38 | false without a list, else membership |
| PermissionUtil.CheckAnyPermission | src/utils/permissionUtil.js:43-46 | true iff some requested code is held; false for an empty request |
| PermissionUtil.CheckAllPermissions | src/utils/permissionUtil.js:51-54 | true iff every requested code is held; for an empty request, true iff a list exists |
| PermissionUtil.HasPermission | src/utils/permissionUtil.js:10-13 | true iff there is a user holding the code |
| PermissionUtil.HasAnyPermission | src/utils/permissionUtil.js:15-18 | true iff there is a user holding some requested code |
| PermissionUtil.HasAllPermissions | src/utils/permissionUtil.js:20-23 | true iff there is a user holding every requested code |
| PermissionUtil.AllImpliesAny | src/utils/permissionUtil.js:43-54 | for a non-empty request, all-held implies some-held |
| PermissionUtil.SingletonChecks | src/utils/permissionUtil.js:35-54 | for one code, the any-check and the all-check equal the single check |
| PermissionUtil.NoUserDenied | src/utils/permissionUtil.js:10-23 | without a user every hook is false, for any request |
| PermissionUtil.HooksAreChecks | src/utils/permissionUtil.js:7-54 | each hook equals the standalone check on the user's permission list |
| PermissionUtil.SessionHasPermission | src/utils/permissionUtil.js:10-13 | after session set-up, the hook grants a code iff a fetched menu granted by the role carries it |
| UserList.ShowAddButton | src/pages/system/UserList.jsx:170-174 | the Add User button is shown iff `sys:user:save` is held |
| UserList.Columns | src/pages/system/UserList.jsx:116-164 | the six base columns in order, then the Action column iff `sys:user:update` or `sys:user:delete` is held |
| UserList.RowActions | src/pages/system/UserList.jsx:137-162 | Edit iff `sys:user:update`, Delete iff `sys:user:delete`, Edit before Delete |
| UserList.ActionColumnNeverEmpty | src/pages/system/UserList.jsx:133-162 | the Action column appears exactly when a row has at least one button |
| UserList.NoUserNoControls | src/pages/system/UserList.jsx:133-174 | without a user no control is shown |
| UserList.FormOf | src/pages/system/UserList.jsx:69-73 | the record's role, real name, email and status fill the form; its user name and password do when it carries them, else the previous values stay |
| UserList.FormOfLaws | src/pages/system/UserList.jsx:69-73 | setting a record twice equals setting it once; a record with user name and password replaces any previous form; a lacking user name keeps a filled one filled |
| UserList.UserEditor.Payload | src/pages/system/UserList.jsx:197-205 | the form values with `userId = editingId`; a password only when adding |
| UserList.UserEditor.Serial | src/pages/system/UserList.jsx:120-122 | a row's serial number lies within its page's block |
| UserList.UserEditor.constructor | src/pages/system/UserList.jsx:11-21 | page 1 of size 10, total 0, nothing edited, dialog closed |
| UserList.UserEditor.HandleTableChange | src/pages/system/UserList.jsx:55-61 | page number and size are taken from the pager; the total is kept |
| UserList.UserEditor.HandleAdd | src/pages/system/UserList.jsx:63-67 | nothing edited, the reset form, the dialog open; the username is enabled and the password field present |
| UserList.UserEditor.HandleEdit | src/pages/system/UserList.jsx:69-73 | the record's id is set and its fields are merged into the previous form; for a non-zero id the username is disabled and the password field absent |
| UserList.UserEditor.HandleOk | src/pages/system/UserList.jsx:95-106 | an invalid form sends nothing; otherwise exactly the form's payload (its values, the editing id, a password only when adding); the toast; the dialog closes only on success |
| Mock.MergeUserLaws | src/utils/mock.js:166 | the merge `{ ...stored, ...sent }` is idempotent, sending nothing keeps the record, and unsent fields are kept |
| Mock.MergeRoleLaws | src/utils/mock.js:195 | the same for roles |
| Mock.MergeMenuLaws | src/utils/mock.js:235 | the same for menus |
| Mock.NewUser | src/utils/mock.js:168-173 | a new user gets the fresh id, status 1 and the creation time |
| Mock.NewRole | src/utils/mock.js:197-202 | a new role gets the fresh id, status 1 and the creation time |
| Mock.NewMenu | src/utils/mock.js:237-241 | a new menu gets the fresh id, and `orderNum` defaults to 0 |
| Mock.UserIndex | src/utils/mock.js:165 | `findIndex`: the first user with the id, or -1 when there is none |
| Mock.FindRole | src/utils/mock.js:145 | a role is found iff one has the id, and it is the first role with that id |
| Mock.Login | src/utils/mock.js:128-136 | success iff the first user matching `username` and `password` is not disabled, and that first match is the user returned; the token is `mock-token-<userId>`; "Account is disabled" iff that first match is disabled; "Invalid username or password" iff no user matches |
| Mock.GetUserInfo | src/utils/mock.js:138-147 | resolves iff the token's third `-` piece parses to a number some user has as id; the user is then the first with that id, with the role matching its `roleId`; otherwise "Invalid token" |
| Mock.TokenPieces | src/utils/mock.js:141 | the token of a non-negative id below 10^21 splits at `-` into `mock`, `token` and the id's digits |
| Mock.ResolveToken | src/utils/mock.js:138-147 | the token of a non-negative id below 10^21 resolves to the first user with that id, with that user's role |
| Mock.LoginTokenRoundTrip | src/utils/mock.js:128-147 | for a user id in `0 .. 10^21`, a token issued by login resolves back to a user with the same id, and with unique ids to the same user and role |
| Mock.NegativeIdTokenInvalid | src/utils/mock.js:141-143 | the token of a negative id never resolves |
| Mock.SeedUsersCannotLogIn | src/utils/mock.js:4-27 | the seed users carry `userName`, not `username`, so no seed user can log in |
| Mock.SeedMenuIds | src/utils/mock.js:48-99 | the seed menu ids are unique and non-zero |
| Mock.RoleNameFor | src/utils/mock.js:159 | the role's name when a role with a non-empty name exists, else `N/A` |
| Mock.GetUsers | src/utils/mock.js:155-161 | one row per user, in order, each with a non-empty role name, `N/A` when no role matches |
| Mock.GetMenuTree | src/utils/mock.js:216-230 | the same forest as the menu service's builder |
| Mock.MockDb.constructor | src/utils/mock.js:102-116 | each array is the stored one, or the seed data when nothing is stored |
| Mock.MockDb.SaveUser | src/utils/mock.js:162-178 | with an id, the first matching user is merged and nothing else changes; without one, a new user is appended |
| Mock.MockDb.DeleteUser | src/utils/mock.js:179-184 | every user with the id is removed and the others keep their order |
| Mock.MockDb.SaveRole | src/utils/mock.js:191-207 | with an id, the first matching role is merged and nothing else changes; without one, a new role is appended |
| Mock.MockDb.DeleteRole | src/utils/mock.js:208-213 | every role with the id is removed and the others keep their order |
| Mock.MockDb.SaveMenu | src/utils/mock.js:231-246 | with an id, the first matching menu is merged and nothing else changes; without one, a new menu is appended; unique non-zero ids stay so when a new menu's id is fresh and non-zero |
| Mock.MockDb.DeleteMenu | src/utils/mock.js:247-253 | the menu and its direct children are removed, the others keep their order; unique non-zero ids stay so |
| Mock.KeepMenuIds | src/utils/mock.js:250 | filtering the menus keeps their ids unique and non-zero |
| Mock.AppendMenuIds | src/utils/mock.js:236-241 | appending a menu with a fresh non-zero id keeps the ids unique and non-zero |
| Mock.MergeMenuIds | src/utils/mock.js:233-234 | merging a patch into the menu its id names leaves every id in place |
| Mock.DeleteMenuOrphans | src/utils/mock.js:250 | with unique ids, deleting a menu keeps each grandchild while no remaining record has its parent's id |
| Mock.DeleteMenuOrphansGrandchildren | src/utils/mock.js:250 | deleting the root of a three-level chain leaves only the grandchild, as an orphan |
| Decimal.NatToStringValue | src/utils/mock.js:133 | the decimal rendering of an id reads back as that id |
| Decimal.ParseRendered | src/utils/mock.js:141 | `parseInt` of a rendered non-negative id below 10^21 gives the id |
| Decimal.ParseDigits | src/utils/mock.js:141 | `parseInt` of a digit string gives its value |
| Decimal.ParseInt | src/utils/mock.js:141 | a parsed number comes from a string with at least one digit |
| Decimal.SplitAfter | src/utils/mock.js:141 | `split` cuts at the first separator and goes on with the rest |
| Decimal.SplitNoSep | src/utils/mock.js:141 | a string without the separator splits into itself |
| Decimal.IntToStringInjective | src/utils/apiClient.js:59 | different numbers render differently |
| Seqs.KeepMembers | src/utils/mock.js:181 | `filter` keeps exactly the elements satisfying the predicate |
| Seqs.KeepSubsequence | src/context/AuthContext.jsx:34 | `filter` keeps the order |
| Seqs.FirstIndex | src/utils/mock.js:165 | `findIndex`: the first satisfying position, or -1 when there is none |
| App.BuildRoute | src/App.jsx:78-124 | the path is kept; an unknown component gives the placeholder with no children; a known one is guarded iff protected; `exact` is copied; children are built only when present and not under the placeholder |
| App.BuildRoutes | src/App.jsx:77-126 | one route per definition, in order, with the same paths |
| App.RouterRoutes | src/App.jsx:41-55 | no routes until definitions are loaded; then the built routes followed by the catch-all |
| App.ProtectedRoute | src/App.jsx:69-74 | loading while loading, the login redirect without a user, else the page |
| App.DefaultRouterRoutes | src/App.jsx:43-50 | the default definitions build to the login page, the guarded layout with the dashboard, then the catch-all |
| App.BuiltPath | src/App.jsx:77-126 | building keeps every path of a definition tree in pre-order, except under an unknown component |
| App.BuiltPaths | src/App.jsx:77-126 | the same for a list of definitions |
| App.BuiltRouteResolved | src/App.jsx:79-122 | no built route at any depth is a redirect; each names a known component or the placeholder for an unknown one |
| App.GuardedExactly | src/App.jsx:91-97 | a route is guarded iff its component is known and the definition is protected |
| App.Concat | src/App.jsx:106-108 | every path of every piece is in the concatenation |
| DynamicRouter.ChosenRoutes | src/component/DynamicRouter.jsx:14-30 | logged out: the defaults; logged in: the fetched routes, or the defaults when the fetch fails |
| DynamicRouter.DefaultRoutesShape | src/component/DynamicRouter.jsx:39-56 | `/login` (Login, exact) and `/` (MainLayout, protected) with the single child `dashboard` (Dashboard) |
| DynamicRouter.RouteLoader.constructor | src/component/DynamicRouter.jsx:7-8 | no routes yet, loading |
| DynamicRouter.RouteLoader.LoadRoutes | src/component/DynamicRouter.jsx:13-33 | the routes become the chosen ones and loading ends, in either branch |
| ApiClient.WithToken | src/utils/apiClient.js:12-19 | a non-empty stored token is set as the `satoken` header; otherwise the headers are unchanged; other headers are always kept |
| ApiClient.RequestConfig.AttachToken | src/utils/apiClient.js:12-19 | the interceptor leaves the headers the token rule gives |
| ApiClient.AttachTwice | src/utils/apiClient.js:12-19 | attaching the token twice is the same as once |
| ApiClient.HandleReply | src/utils/apiClient.js:26-68 | resolves iff the code is 0, with the payload and no toast; any other code rejects with `msg` or `Error code: <code>`; a transport error shows the network toast and rejects with the error itself |
| ApiClient.ToastIffRejected | src/utils/apiClient.js:29-67 | a toast is shown iff the request is rejected |
| ApiClient.ToastSeverity | src/utils/apiClient.js:36-66 | an error toast iff a transport failure or code 400/401/403/500; a warning iff any other non-zero code |
| ApiClient.ServerMessageWins | src/utils/apiClient.js:36-59 | a non-empty server message is both the toast and the rejection text; without one, the code's default text and `Error code: <code>` |
| ApiClient.ErrorCodeText | src/utils/apiClient.js:37-53 | the default texts of the four error codes, none of them empty |
| ApiClient.OrText | src/utils/apiClient.js:38 | the server message when it is non-empty, else the fallback text |
| ApiClient.CodeTextInjective | src/utils/apiClient.js:59 | different codes without a message reject with different texts |

## Left out

- `BuildTree`, `GetMenuTree`, `GetMenuItems`: these require unique, non-zero `menuId`s. This is a simplification. With a repeated id along an ancestor chain the JavaScript recursion does not terminate, so there is no result to model. But the condition also excludes inputs on which the recursion does end, and the model says nothing about them. Two examples: the same id under two different parents (`[{menuId:1,parentId:0},{menuId:1,parentId:0},{menuId:2,parentId:1}]`), and a record with id 0 that no chain reaches (`[{menuId:0,parentId:7}]`).
- Missing `null` strings (for example a menu node without a `name`) are modelled as the empty string. Both are falsy.
- `MenuList.MenuEditor.HandleOk` sends `selectedParentId`. The payload's `|| 0` only matters for a null parent id, and the model's parent id is always an integer.
- antd `validateFields` is modelled by the required fields only: `name` for menus, `roleName` for roles, and username, realName, roleId and (when adding) password for users. Other validation rules and the pending promise are not modelled.
- The outcome of every backend call is a parameter: `saved`, `fetched`, `logoutOk` and `confirmed`. The same goes for localStorage contents, `Date.now()` ids and `dayjs` timestamps.
- The mock store's `persist()`, which writes its arrays to localStorage, is not modelled. The session token entry `satoken` is modelled, as `AuthContext.AuthState.storage`.
- `Decimal.IntToString`, `Mock.TokenFor`: ids are unbounded integers, and every one is rendered in plain digits. JavaScript ids are numbers: from 10^21 upwards they render in exponent notation (`1e+21`, which `parseInt` reads back as 1), and integers above 2^53 are not all representable. The token round-trip lemmas (`Mock.TokenPieces`, `Mock.ResolveToken`, `Mock.LoginTokenRoundTrip`, `Decimal.ParseRendered`) therefore require ids below 10^21 (`Decimal.PlainDigitsBound`). Floating-point rounding of ids is not modelled.
- Absent fields of a new mock record default to empty strings and 0 (JavaScript would leave them `undefined`).
- `Decimal.ParseInt` models `parseInt` with radix 10 on decimal strings only: the hexadecimal `0x` prefix is not modelled. Its white-space set is ECMAScript's WhiteSpace and LineTerminator characters, taking the space separators of Unicode category Zs as listed in current Unicode versions.
- i18n texts appear as their fallback English strings. The translation tables are not modelled.
- antd component behaviour, React effects and rendering are not modelled. This includes the Table's page change in RoleList, the Tree's own check propagation, and the menu type render cell.
- `AuthContext.AuthState.InitAuth`: the `logout()` it calls after a failed fetch is not awaited in the source. The model applies it at once, and applies `setLoading(false)` after it.
- Promise sequencing, `Promise.all`, and axios request and response objects are not modelled. `ApiClient.HandleReply` works on the envelope only, not `{ ...response, data }`.
- `ApiClient.HandleReply`: `code` is modelled as an integer or absent. A non-numeric code with strict equality is not modelled.
- `MainLayout.SortKeepsOrder`: the JavaScript sort is modelled as a stable insertion sort; the comparator is constant, so only stability matters.
- `MainLayout.IconFor`: prototype keys of `iconMap` (such as `constructor`) are not modelled as hits.
- `App.BuildRoute`: prototype keys of `componentMap` (such as `constructor`, `toString`, `__proto__`) are not modelled as known components. The JavaScript looks them up as found values; the model gives the placeholder for them.
- `loadData` and `handleDelete` of the pages only orchestrate service calls and toasts, and are not modelled.
- `AuthContext.AuthState.Login`: a missing `msg` in a failed reply appears as the empty string.
- `UserList.FormOf`: `None` stands for a key the record lacks, which `setFieldsValue` leaves alone. A user name or password sent as `null` would clear the field instead; the model has no separate `null`. The real name, email and status are always present in the modelled record, so they are always set.
- The base URL and environment configuration of `apiClient` are not modelled.
- `UserList.UserEditor.HandleOk` passes the number 3 where the message helper expects a kind. The message helper then shows an info toast, which is what the model returns.
- The `menuService` HTTP calls other than `buildTree`, and the user, role and auth services, are not part of this model.
