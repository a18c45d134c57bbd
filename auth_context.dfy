/**
 * The authentication context: the session's token, login flag, user and menus. `initAuth` derives
 * the user's menus from the role's menu ids and the permission codes from those menus; `logout`
 * clears the session only when the backend confirms it.
 */
module AuthContext {
  import opened Wrappers
  import opened Records
  import opened Seqs

  /** What `getUserInfo` returns: the user record together with the user's role, if any. */
  datatype UserInfo = UserInfo(user: User, role: Option<Role>)

  /** The session user: the user information extended with the permission codes of the session. */
  datatype SessionUser = SessionUser(info: UserInfo, permissions: seq<string>)

  /** What the two fetches of `initAuth` delivered when both succeeded. */
  datatype Fetched = Fetched(allMenus: seq<MenuItem>, info: UserInfo)

  /** The backend's answer to a login attempt: a reply with a code, or an exception. */
  datatype LoginReply = Replied(code: int, data: string, msg: string) | Threw(message: string)

  /** What `login` returns to the login page. */
  datatype LoginResult = LoginResult(success: bool, token: Option<string>, message: Option<string>)

  const LoginErrorText := "An error occurred during login"

  /** JavaScript truthiness of a possibly missing string. */
  predicate Present(o: Option<string>)
  {
    o.Some? && NonEmpty(o.value)
  }

  /** `userInfo.role ? userInfo.role.menuIds : []`. */
  function RoleMenuIds(info: UserInfo): seq<int>
  {
    if info.role.Some? then info.role.value.menuIds else []
  }

  /** `allMenus.filter(m => roleMenuIds.includes(m.menuId))`. */
  function UserMenus(all: seq<MenuItem>, ids: seq<int>): (r: seq<MenuItem>)
    ensures |r| <= |all|
  {
    if all == [] then [] else (if all[0].menuId in ids then [all[0]] else []) + UserMenus(all[1..], ids)
  }

  /** `userMenus.map(m => m.perms)`: one code per menu, in menu order. */
  function Permissions(ms: seq<MenuItem>): (r: seq<string>)
    ensures |r| == |ms|
    ensures forall i :: 0 <= i < |ms| ==> r[i] == ms[i].perms
  {
    if ms == [] then [] else [ms[0].perms] + Permissions(ms[1..])
  }

  /** The menus of the session built from `f`. */
  function MenusOf(f: Fetched): seq<MenuItem>
  {
    UserMenus(f.allMenus, RoleMenuIds(f.info))
  }

  /** The session user built from `f`. */
  function SessionOf(f: Fetched): SessionUser
  {
    SessionUser(f.info, Permissions(MenusOf(f)))
  }

  /** The user's menus are exactly the fetched menus with an id the role grants. */
  lemma {:induction false} UserMenusMembers(all: seq<MenuItem>, ids: seq<int>)
    ensures forall m :: m in UserMenus(all, ids) <==> m in all && m.menuId in ids
  {
    if all != [] {
      UserMenusMembers(all[1..], ids);
      assert all == [all[0]] + all[1..];
    }
  }

  /** The filter keeps the fetched order: its result is a subsequence of the fetched menus. */
  lemma {:induction false} UserMenusSubsequence(all: seq<MenuItem>, ids: seq<int>)
    ensures IsSubsequence(UserMenus(all, ids), all)
  {
    if all != [] {
      UserMenusSubsequence(all[1..], ids);
      var r := UserMenus(all[1..], ids);
      if all[0].menuId in ids {
        assert UserMenus(all, ids) == [all[0]] + r;
        assert ([all[0]] + r)[1..] == r;
      } else {
        assert UserMenus(all, ids) == r;
        SubsequenceSkip(r, all);
      }
    }
  }

  /** Filtering by the same ids twice is filtering once. */
  lemma {:induction false} UserMenusIdempotent(all: seq<MenuItem>, ids: seq<int>)
    ensures UserMenus(UserMenus(all, ids), ids) == UserMenus(all, ids)
  {
    if all != [] {
      UserMenusIdempotent(all[1..], ids);
      var r := UserMenus(all[1..], ids);
      if all[0].menuId in ids {
        assert UserMenus(all, ids) == [all[0]] + r;
        assert ([all[0]] + r)[0] == all[0] && ([all[0]] + r)[1..] == r;
      } else {
        assert UserMenus(all, ids) == r;
      }
    }
  }

  /** Without a role the session has no menus and no permissions. */
  lemma NoRoleNoMenus(f: Fetched)
    requires f.info.role.None?
    ensures MenusOf(f) == [] && SessionOf(f).permissions == []
  {
    NothingGranted(f.allMenus);
  }

  lemma {:induction false} NothingGranted(all: seq<MenuItem>)
    ensures UserMenus(all, []) == []
  {
    if all != [] {
      NothingGranted(all[1..]);
    }
  }

  /**
   * A code is a session permission exactly when some fetched menu the role grants carries it;
   * the list keeps one entry per menu, so duplicates and empty codes stay.
   */
  lemma SessionPermissions(f: Fetched, code: string)
    ensures code in SessionOf(f).permissions <==>
              exists m :: m in f.allMenus && m.menuId in RoleMenuIds(f.info) && m.perms == code
    ensures |SessionOf(f).permissions| == |MenusOf(f)|
  {
    var ms := MenusOf(f);
    var ps := SessionOf(f).permissions;
    UserMenusMembers(f.allMenus, RoleMenuIds(f.info));
    if code in ps {
      var i :| 0 <= i < |ps| && ps[i] == code;
      assert ms[i] in ms;
    }
    if exists m :: m in f.allMenus && m.menuId in RoleMenuIds(f.info) && m.perms == code {
      var m :| m in f.allMenus && m.menuId in RoleMenuIds(f.info) && m.perms == code;
      var i :| 0 <= i < |ms| && ms[i] == m;
      assert ps[i] == code;
    }
  }

  /** The state of `AuthProvider`, with the stored `satoken` entry as the field `storage`. */
  class AuthState {
    var storage: Option<string>
    var isLoggedIn: bool
    var token: Option<string>
    var user: Option<SessionUser>
    var menus: seq<MenuItem>
    var loading: bool

    /** The session permissions are those of the session menus, and a user only exists logged in. */
    ghost predicate Valid()
      reads this
    {
      user.Some? ==> isLoggedIn && user.value.permissions == Permissions(menus)
    }

    /** The initial state: nobody logged in, still loading; `stored` is what the storage holds. */
    constructor(stored: Option<string>)
      ensures Valid()
      ensures storage == stored && !isLoggedIn && token == None && user == None && menus == [] && loading
    {
      storage := stored;
      isLoggedIn := false;
      token := None;
      user := None;
      menus := [];
      loading := true;
    }

    /** `logout`, given whether the backend confirmed it. */
    method Logout(confirmed: bool)
      requires Valid()
      modifies this
      ensures Valid()
      ensures confirmed ==> storage == None && token == None && !isLoggedIn && user == None && menus == []
      ensures !confirmed ==>
                storage == old(storage) && token == old(token) && isLoggedIn == old(isLoggedIn)
                && user == old(user) && menus == old(menus)
      ensures loading == old(loading)
    {
      if confirmed {
        storage := None;
        token := None;
        isLoggedIn := false;
        user := None;
        menus := [];
      }
    }

    /**
     * `initAuth(tokenParam)`. `fetched` is what the menu and user-info requests delivered, `None`
     * when either failed; `logoutOk` is the backend's answer to the logout that a failure triggers.
     */
    method InitAuth(tokenParam: Option<string>, fetched: Option<Fetched>, logoutOk: bool)
      requires Valid()
      modifies this
      ensures Valid()
      ensures !loading
      ensures !Present(old(storage)) && !Present(tokenParam) ==>
                storage == old(storage) && token == old(token) && isLoggedIn == old(isLoggedIn)
                && user == old(user) && menus == old(menus)
      ensures (Present(old(storage)) || Present(tokenParam)) && fetched.Some? ==>
                && storage == old(storage)
                && token == (if Present(old(storage)) then old(storage) else tokenParam)
                && isLoggedIn
                && user == Some(SessionOf(fetched.value))
                && menus == MenusOf(fetched.value)
      ensures (Present(old(storage)) || Present(tokenParam)) && fetched.None? && logoutOk ==>
                storage == None && token == None && !isLoggedIn && user == None && menus == []
      ensures (Present(old(storage)) || Present(tokenParam)) && fetched.None? && !logoutOk ==>
                && storage == old(storage)
                && token == (if Present(old(storage)) then old(storage) else tokenParam)
                && isLoggedIn && user == old(user) && menus == old(menus)
    {
      var stored := storage;
      if Present(stored) || Present(tokenParam) {
        token := if Present(stored) then stored else tokenParam;
        isLoggedIn := true;
        match fetched {
          case Some(f) =>
            var userMenus := UserMenus(f.allMenus, RoleMenuIds(f.info));
            user := Some(SessionUser(f.info, Permissions(userMenus)));
            menus := userMenus;
          case None =>
            Logout(logoutOk);
        }
      }
      loading := false;
    }

    /**
     * `login(username, password)` given the backend's `reply`; a successful login stores the
     * token and runs `initAuth` with it, whose fetches deliver `fetched`.
     */
    method Login(reply: LoginReply, fetched: Option<Fetched>, logoutOk: bool) returns (result: LoginResult)
      requires Valid()
      modifies this
      ensures Valid()
      ensures reply.Replied? && reply.code == 0 ==>
                && result == LoginResult(true, Some(reply.data), None)
                && token == (if NonEmpty(reply.data) && fetched.None? && logoutOk then None else Some(reply.data))
                && !loading
      ensures reply.Replied? && reply.code == 0 && NonEmpty(reply.data) && fetched.Some? ==>
                storage == Some(reply.data) && isLoggedIn && user == Some(SessionOf(fetched.value))
                && menus == MenusOf(fetched.value)
      ensures reply.Replied? && reply.code == 0 ==>
                var cleared := NonEmpty(reply.data) && fetched.None? && logoutOk;
                var setUp := NonEmpty(reply.data) && fetched.Some?;
                && storage == (if cleared then None else Some(reply.data))
                && isLoggedIn == !cleared
                && user == (if cleared then None else if setUp then Some(SessionOf(fetched.value)) else old(user))
                && menus == (if cleared then [] else if setUp then MenusOf(fetched.value) else old(menus))
      ensures reply.Replied? && reply.code != 0 ==>
                result == LoginResult(false, None, Some(reply.msg)) && unchanged(this)
      ensures reply.Threw? ==>
                result == LoginResult(false, None, Some(if NonEmpty(reply.message) then reply.message else LoginErrorText))
                && unchanged(this)
    {
      match reply {
        case Replied(code, data, msg) =>
          if code == 0 {
            storage := Some(data);
            token := Some(data);
            isLoggedIn := true;
            InitAuth(Some(data), fetched, logoutOk);
            result := LoginResult(true, Some(data), None);
          } else {
            result := LoginResult(false, None, Some(msg));
          }
        case Threw(message) =>
          result := LoginResult(false, None, Some(if NonEmpty(message) then message else LoginErrorText));
      }
    }
  }
}
