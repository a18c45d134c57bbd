/**
 * The permission checks: the standalone `checkPermission`, `checkAnyPermission` and
 * `checkAllPermissions` over a possibly missing list of permission codes, and the `usePermission`
 * variants over the session user. A missing list denies everything; an empty list is present
 * (JavaScript arrays are truthy) and only lacks every code.
 */
module PermissionUtil {
  import opened Wrappers
  import opened AuthContext

  /** `list.includes(code)`: a scan from the front. */
  function Includes(list: seq<string>, code: string): (r: bool)
    ensures r <==> code in list
  {
    if list == [] then false else list[0] == code || Includes(list[1..], code)
  }

  /** `codes.some(c => list.includes(c))`. */
  function SomeHeld(codes: seq<string>, list: seq<string>): (r: bool)
    ensures r <==> exists i :: 0 <= i < |codes| && codes[i] in list
  {
    if codes == [] then false
    else
      assert forall i :: 0 < i < |codes| ==> codes[i] == codes[1..][i - 1];
      Includes(list, codes[0]) || SomeHeld(codes[1..], list)
  }

  /** `codes.every(c => list.includes(c))`. */
  function EveryHeld(codes: seq<string>, list: seq<string>): (r: bool)
    ensures r <==> forall i :: 0 <= i < |codes| ==> codes[i] in list
  {
    if codes == [] then true
    else
      assert forall i :: 0 < i < |codes| ==> codes[i] == codes[1..][i - 1];
      Includes(list, codes[0]) && EveryHeld(codes[1..], list)
  }

  /** `checkPermission(code, userPermissions)`. */
  function CheckPermission(code: string, perms: Option<seq<string>>): (r: bool)
    ensures r <==> perms.Some? && code in perms.value
  {
    if perms.None? then false else Includes(perms.value, code)
  }

  /** `checkAnyPermission(codes, userPermissions)`. */
  function CheckAnyPermission(codes: seq<string>, perms: Option<seq<string>>): (r: bool)
    ensures r <==> perms.Some? && exists i :: 0 <= i < |codes| && codes[i] in perms.value
    ensures codes == [] ==> !r
  {
    if perms.None? then false else SomeHeld(codes, perms.value)
  }

  /** `checkAllPermissions(codes, userPermissions)`. */
  function CheckAllPermissions(codes: seq<string>, perms: Option<seq<string>>): (r: bool)
    ensures r <==> perms.Some? && forall i :: 0 <= i < |codes| ==> codes[i] in perms.value
    ensures codes == [] ==> (r <==> perms.Some?)
  {
    if perms.None? then false else EveryHeld(codes, perms.value)
  }

  /** The permission list the hooks see: the session user's, or none without a user. */
  function UserPermissions(user: Option<SessionUser>): Option<seq<string>>
  {
    if user.None? then None else Some(user.value.permissions)
  }

  /** `usePermission().hasPermission(code)`. */
  function HasPermission(user: Option<SessionUser>, code: string): (r: bool)
    ensures r <==> user.Some? && code in user.value.permissions
  {
    if user.None? then false else Includes(user.value.permissions, code)
  }

  /** `usePermission().hasAnyPermission(codes)`. */
  function HasAnyPermission(user: Option<SessionUser>, codes: seq<string>): (r: bool)
    ensures r <==> user.Some? && exists i :: 0 <= i < |codes| && codes[i] in user.value.permissions
  {
    if user.None? then false else SomeHeld(codes, user.value.permissions)
  }

  /** `usePermission().hasAllPermissions(codes)`. */
  function HasAllPermissions(user: Option<SessionUser>, codes: seq<string>): (r: bool)
    ensures r <==> user.Some? && forall i :: 0 <= i < |codes| ==> codes[i] in user.value.permissions
  {
    if user.None? then false else EveryHeld(codes, user.value.permissions)
  }

  /** For a non-empty request, holding every code implies holding some code. */
  lemma AllImpliesAny(codes: seq<string>, perms: Option<seq<string>>)
    requires codes != []
    ensures CheckAllPermissions(codes, perms) ==> CheckAnyPermission(codes, perms)
  {
    if CheckAllPermissions(codes, perms) {
      assert codes[0] in perms.value;
    }
  }

  /** For a request of one code, both list checks are the single check. */
  lemma SingletonChecks(code: string, perms: Option<seq<string>>)
    ensures CheckAnyPermission([code], perms) == CheckPermission(code, perms)
    ensures CheckAllPermissions([code], perms) == CheckPermission(code, perms)
  {
    assert [code][0] == code;
  }

  /** Without a user every hook denies, whatever is asked, the empty request included. */
  lemma NoUserDenied(code: string, codes: seq<string>)
    ensures !HasPermission(None, code) && !HasAnyPermission(None, codes) && !HasAllPermissions(None, codes)
  {
  }

  /** The hooks are the standalone checks applied to the session user's permission list. */
  lemma HooksAreChecks(user: Option<SessionUser>, code: string, codes: seq<string>)
    ensures HasPermission(user, code) == CheckPermission(code, UserPermissions(user))
    ensures HasAnyPermission(user, codes) == CheckAnyPermission(codes, UserPermissions(user))
    ensures HasAllPermissions(user, codes) == CheckAllPermissions(codes, UserPermissions(user))
  {
  }

  /**
   * After a successful `initAuth`, the session user holds a code exactly when some fetched menu
   * granted to the role carries it.
   */
  lemma SessionHasPermission(f: Fetched, code: string)
    ensures HasPermission(Some(SessionOf(f)), code) <==>
              exists m :: m in f.allMenus && m.menuId in RoleMenuIds(f.info) && m.perms == code
  {
    SessionPermissions(f, code);
  }
}
