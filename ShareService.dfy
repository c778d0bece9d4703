// Sharing objects with users and groups (de.mpg.imeji.logic.share.ShareService):
// the conversions between share roles and grants, and the replacement of
// the grants a user or group holds on one URI. Persisting the changed user
// or group is not modelled: the operations return it.
module ShareService {
  import opened Wrappers
  import opened JavaStrings
  import opened ImejiModel
  import opened Authorization

  /** `ShareRoles`. */
  datatype ShareRole = ReadRole | EditRole | AdminRole

  /** The exceptions the operations can raise. */
  datatype ShareError =
    | IllegalArgument   // `valueOf` of an unknown name
    | NotAllowed        // `checkSecurity` refused
    | NullPointer       // `checkSecurity` refused a null user, whose email it then reads

  /** The enum constant's name, as `toString` and `name` give it. */
  function RoleName(r: ShareRole): string {
    match r
    case ReadRole => ReadType
    case EditRole => EditType
    case AdminRole => AdminType
  }

  /** `ShareRoles.valueOf`: the role with that exact name. */
  function RoleOf(name: string): (r: Result<ShareRole, ShareError>)
    ensures r.Success? <==> name in {ReadType, EditType, AdminType}
    ensures r.Success? ==> RoleName(r.value) == name
  {
    if name == ReadType then Success(ReadRole)
    else if name == EditType then Success(EditRole)
    else if name == AdminType then Success(AdminRole)
    else Failure(IllegalArgument)
  }

  /** `rolesAsList`: the role names, in order. */
  function RoleNames(roles: seq<ShareRole>): (l: seq<string>)
    ensures |l| == |roles|
    ensures forall i :: 0 <= i < |l| ==> l[i] == RoleName(roles[i])
  {
    seq(|roles|, i requires 0 <= i < |roles| => RoleName(roles[i]))
  }

  /** The loop of `rolesAsList`. */
  method RolesAsList(roles: seq<ShareRole>) returns (l: seq<string>)
    ensures l == RoleNames(roles)
  {
    l := [];
    for i := 0 to |roles|
      invariant l == RoleNames(roles[..i])
    {
      l := l + [RoleName(roles[i])];
    }
    assert roles[..|roles|] == roles;
  }

  /** Every listed name reads back as the role it came from. */
  lemma RoleNamesRoundTrip(roles: seq<ShareRole>)
    ensures forall i :: 0 <= i < |roles| ==> RoleOf(RoleNames(roles)[i]) == Success(roles[i])
  {
    forall i | 0 <= i < |roles| ensures RoleOf(RoleNames(roles)[i]) == Success(roles[i]) {
      match roles[i]
      case ReadRole =>
      case EditRole =>
      case AdminRole =>
    }
  }

  // ---------------------------------------------------------------------
  // Roles and grants

  /** `toGrant`: no grant for no role; an unknown role name throws. */
  function ToGrant(role: Option<string>, grantFor: string): (r: Result<Option<Grant>, ShareError>)
    ensures role.None? ==> r == Success(None)
    ensures role.Some? ==> (r.Success? <==> role.value in {ReadType, EditType, AdminType})
    ensures r.Success? && role.Some? ==> r.value == Some(Grant(role.value, grantFor))
  {
    if role.None? then Success(None)
    else match RoleOf(role.value)
      case Failure(e) => Failure(e)
      case Success(ro) => Success(Some(Grant(RoleName(ro), grantFor)))
  }

  /** `transformGrantToRole`: no role for no grant; a grant type that names no role throws. */
  function TransformGrantToRole(g: Option<Grant>): (r: Result<Option<ShareRole>, ShareError>)
    ensures g.None? ==> r == Success(None)
    ensures g.Some? ==> (r.Success? <==> g.value.grantType in {ReadType, EditType, AdminType})
    ensures r.Success? && g.Some? ==> r.value.Some? && RoleName(r.value.value) == g.value.grantType
  {
    if g.None? then Success(None)
    else match RoleOf(g.value.grantType)
      case Failure(e) => Failure(e)
      case Success(ro) => Success(Some(ro))
  }

  /** A role made into a grant reads back as the same role, for every URI. */
  lemma RoleGrantRoundTrip(r: ShareRole, uri: string)
    ensures ToGrant(Some(RoleName(r)), uri).Success?
    ensures TransformGrantToRole(ToGrant(Some(RoleName(r)), uri).value) == Success(Some(r))
  {
    match r
    case ReadRole =>
    case EditRole =>
    case AdminRole =>
  }

  /** A grant whose type is a role comes back from its role unchanged. */
  lemma GrantRoleRoundTrip(g: Grant)
    requires TransformGrantToRole(Some(g)).Success?
    ensures ToGrant(Some(RoleName(TransformGrantToRole(Some(g)).value.value)), g.grantFor) == Success(Some(g))
  {
  }

  // ---------------------------------------------------------------------
  // Replacing the grants on one URI

  /** The grants that do not end with `uri`, in order. */
  function WithoutUri(grants: seq<string>, uri: string): (r: seq<string>)
    ensures |r| <= |grants|
    ensures forall s :: s in r ==> s in grants && !EndsWith(s, uri)
  {
    if |grants| == 0 then []
    else (if EndsWith(grants[0], uri) then [] else [grants[0]]) + WithoutUri(grants[1..], uri)
  }

  lemma {:induction false} WithoutUriKeeps(grants: seq<string>, uri: string)
    ensures forall s :: s in grants && !EndsWith(s, uri) ==> s in WithoutUri(grants, uri)
  {
    if |grants| > 0 {
      WithoutUriKeeps(grants[1..], uri);
      forall s | s in grants && !EndsWith(s, uri) ensures s in WithoutUri(grants, uri) {
        if s != grants[0] {
          assert s in grants[1..];
        }
      }
    }
  }

  /** `addGrant(grants, grant, uri)`: drop every grant ending with `uri`, then add the new one if any. */
  function AddGrant(grants: seq<string>, grant: Option<Grant>, uri: string): seq<string> {
    WithoutUri(grants, uri) + (if grant.Some? then [GrantString(grant.value)] else [])
  }

  /**
   * After `addGrant` the grants are the old ones not ending with `uri`, plus
   * the new one last; without a new grant every grant on `uri` is revoked.
   */
  lemma AddGrantSpec(grants: seq<string>, grant: Option<Grant>, uri: string, s: string)
    ensures var r := AddGrant(grants, grant, uri);
      (s in r <==> (s in grants && !EndsWith(s, uri)) || (grant.Some? && s == GrantString(grant.value))) &&
      (grant.Some? ==> r[|r| - 1] == GrantString(grant.value)) &&
      (grant.None? ==> forall t :: t in r ==> !EndsWith(t, uri))
  {
    WithoutUriKeeps(grants, uri);
  }

  /** A grant made for `uri` is then the only grant ending with `uri`. */
  lemma AddGrantReplaces(grants: seq<string>, g: Grant, uri: string)
    requires g.grantFor == uri
    ensures var r := AddGrant(grants, Some(g), uri);
      GrantString(g) in r && forall t :: t in r && EndsWith(t, uri) ==> t == GrantString(g)
  {
  }

  // ---------------------------------------------------------------------
  // Sharing

  /** `checkSecurity`: only a user who administrates `uri` may share it. */
  function CheckSecurity(env: Env, user: Option<User>, uri: string): (r: Option<ShareError>)
    ensures r.None? <==> Administrate(env, user, Some(StringObject(uri)))
  {
    if Administrate(env, user, Some(StringObject(uri))) then None
    else if user.None? then Some(NullPointer)
    else Some(NotAllowed)
  }

  /** The private `addGrant(User, grant, uri)`, without persisting. */
  function WithGrant(u: User, grant: Option<Grant>, uri: string): User {
    u.(grants := AddGrant(u.grants, grant, uri))
  }

  /** Shares the global URI with `to` at the given grant type, once `from` is checked. */
  function ShareGlobal(env: Env, from: Option<User>, to: User, grantType: string): Result<User, ShareError> {
    var e := CheckSecurity(env, from, env.globalUri);
    if e.Some? then Failure(e.value)
    else Success(WithGrant(to, Some(Grant(grantType, env.globalUri)), env.globalUri))
  }

  function ShareSysAdmin(env: Env, from: Option<User>, to: User): Result<User, ShareError> {
    ShareGlobal(env, from, to, AdminType)
  }

  function ShareCreateCollection(env: Env, from: Option<User>, to: User): Result<User, ShareError> {
    ShareGlobal(env, from, to, EditType)
  }

  /** `unshareSysAdmin` is `shareCreateCollection`. */
  function UnshareSysAdmin(env: Env, from: Option<User>, to: User): Result<User, ShareError> {
    ShareCreateCollection(env, from, to)
  }

  function UnshareCreateCollection(env: Env, from: Option<User>, to: User): Result<User, ShareError> {
    ShareGlobal(env, from, to, ReadType)
  }

  /**
   * The global sharing operations succeed exactly when `from` administrates
   * the global URI, and leave `to` with one grant on it: ADMIN makes a
   * sysadmin, EDIT a collection creator who is no sysadmin, READ neither.
   */
  lemma GlobalSharingSpec(env: Env, from: Option<User>, to: User)
    ensures ShareSysAdmin(env, from, to).Success? <==> Administrate(env, from, Some(StringObject(env.globalUri)))
    ensures ShareSysAdmin(env, from, to).Success? ==> IsSysAdmin(env, Some(ShareSysAdmin(env, from, to).value))
    ensures UnshareSysAdmin(env, from, to) == ShareCreateCollection(env, from, to)
    ensures UnshareSysAdmin(env, from, to).Success? ==>
      var u := Some(UnshareSysAdmin(env, from, to).value);
      !IsSysAdmin(env, u) && HasCreateCollectionGrant(env, u)
    ensures UnshareCreateCollection(env, from, to).Success? ==>
      !HasCreateCollectionGrant(env, Some(UnshareCreateCollection(env, from, to).value))
  {
    var g := env.globalUri;
    var admin := GrantString(Grant(AdminType, g));
    var edit := GrantString(Grant(EditType, g));
    var read := GrantString(Grant(ReadType, g));
    assert EndsWith(admin, g) && EndsWith(edit, g) && EndsWith(read, g);
    assert admin != edit && admin != read && edit != read by {
      assert admin[0] == 'A' && edit[0] == 'E' && read[0] == 'R';
    }
    AddGrantReplaces(to.grants, Grant(AdminType, g), g);
    AddGrantReplaces(to.grants, Grant(EditType, g), g);
    AddGrantReplaces(to.grants, Grant(ReadType, g), g);
  }

  /** `shareToUser`: nothing for no user; otherwise the role's grant replaces the user's grants on the URI. */
  function ShareToUser(env: Env, from: Option<User>, to: Option<User>, uri: string, role: Option<string>): Result<Option<User>, ShareError> {
    if to.None? then Success(None)
    else match ToGrant(role, uri)
      case Failure(e) => Failure(e)
      case Success(grant) =>
        var e := CheckSecurity(env, from, uri);
        if e.Some? then Failure(e.value) else Success(Some(WithGrant(to.value, grant, uri)))
  }

  /** `shareToGroup`: the same for a group. */
  function ShareToGroup(env: Env, from: Option<User>, to: Option<UserGroup>, uri: string, role: Option<string>): Result<Option<UserGroup>, ShareError> {
    if to.None? then Success(None)
    else match ToGrant(role, uri)
      case Failure(e) => Failure(e)
      case Success(grant) =>
        var e := CheckSecurity(env, from, uri);
        if e.Some? then Failure(e.value)
        else Success(Some(to.value.(groupGrants := AddGrant(to.value.groupGrants, grant, uri))))
  }

  /**
   * Sharing with a user fails on an unknown role before any check, then on
   * a sharer who does not administrate the URI; on success the user holds
   * the role's grant as its only grant on the URI, or none without a role.
   */
  lemma ShareToUserSpec(env: Env, from: Option<User>, to: User, uri: string, role: Option<string>)
    ensures var r := ShareToUser(env, from, Some(to), uri, role);
      (role.Some? && role.value !in {ReadType, EditType, AdminType} ==> r == Failure(IllegalArgument)) &&
      (ToGrant(role, uri).Success? ==> (r.Success? <==> Administrate(env, from, Some(StringObject(uri))))) &&
      (r.Success? ==> r.value.Some? && r.value.value.id == to.id && r.value.value.groups == to.groups) &&
      (r.Success? && role.Some? ==>
         var gs := r.value.value.grants;
         GrantString(Grant(role.value, uri)) in gs &&
         forall t :: t in gs && EndsWith(t, uri) ==> t == GrantString(Grant(role.value, uri))) &&
      (r.Success? && role.None? ==> forall t :: t in r.value.value.grants ==> !EndsWith(t, uri))
  {
    var r := ShareToUser(env, from, Some(to), uri, role);
    if r.Success? {
      if role.Some? {
        AddGrantReplaces(to.grants, Grant(role.value, uri), uri);
      } else {
        AddGrantSpec(to.grants, None, uri, "");
      }
    }
  }

  /**
   * Sharing with a group fails and succeeds as sharing with a user does; on
   * success the group holds the role's grant as its only grant on the URI,
   * or none without a role.
   */
  lemma ShareToGroupSpec(env: Env, from: Option<User>, to: UserGroup, uri: string, role: Option<string>)
    ensures var r := ShareToGroup(env, from, Some(to), uri, role);
      (role.Some? && role.value !in {ReadType, EditType, AdminType} ==> r == Failure(IllegalArgument)) &&
      (ToGrant(role, uri).Success? ==> (r.Success? <==> Administrate(env, from, Some(StringObject(uri))))) &&
      (r.Success? ==> r.value.Some?) &&
      (r.Success? && role.Some? ==>
         var gs := r.value.value.groupGrants;
         GrantString(Grant(role.value, uri)) in gs &&
         forall t :: t in gs && EndsWith(t, uri) ==> t == GrantString(Grant(role.value, uri))) &&
      (r.Success? && role.None? ==> forall t :: t in r.value.value.groupGrants ==> !EndsWith(t, uri))
  {
    var r := ShareToGroup(env, from, Some(to), uri, role);
    if r.Success? {
      if role.Some? {
        AddGrantReplaces(to.groupGrants, Grant(role.value, uri), uri);
      } else {
        AddGrantSpec(to.groupGrants, None, uri, "");
      }
    }
  }
}
