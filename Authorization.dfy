// The authorization rules (de.mpg.imeji.logic.security.authorization.Authorization).
// Grants are strings of the form "TYPE,URI"; an object is authorized
// through its id: the root of its collection hierarchy for items,
// collections and URIs, the user's own id for users, and the global URI
// for everything else.
module Authorization {
  import opened Wrappers
  import opened JavaStrings
  import opened ImejiModel
  import opened HierarchyService

  /** What the rules read besides their arguments: the hierarchy, the private mode flag and the global URI. */
  datatype Env = Env(hierarchy: Hierarchy, privateMode: bool, globalUri: string)

  /** A grant: a type name and the URI it is for. */
  datatype Grant = Grant(grantType: string, grantFor: string)

  const ReadType: string := "READ"
  const EditType: string := "EDIT"
  const AdminType: string := "ADMIN"

  // ---------------------------------------------------------------------
  // Grant strings

  /** `toGrantString`: type and URI separated by a comma. */
  function GrantString(g: Grant): string {
    g.grantType + "," + g.grantFor
  }

  /** `new Grant(String)`: split at the first comma; a string without one is no grant. */
  function ParseGrant(s: string): (r: Option<Grant>)
    ensures r.Some? ==> GrantString(r.value) == s && ',' !in r.value.grantType
  {
    var k := IndexOfChar(s, ',');
    if k < 0 then None
    else
      assert ',' !in s[..k] by {
        forall j | 0 <= j < k ensures s[j] != ',' { IndexOfCharFirst(s, ',', j); }
      }
      assert s == s[..k] + "," + s[k + 1..];
      Some(Grant(s[..k], s[k + 1..]))
  }

  /** A grant whose type has no comma survives the round trip through its string. */
  lemma ParseGrantString(g: Grant)
    requires ',' !in g.grantType
    ensures ParseGrant(GrantString(g)) == Some(g)
  {
    var s := GrantString(g);
    assert s[..|g.grantType|] == g.grantType;
    IndexOfCharIs(s, ',', |g.grantType|);
    assert s[|g.grantType| + 1..] == g.grantFor;
  }

  // ---------------------------------------------------------------------
  // Grant queries

  /** `hasGrant`: the exact grant string is among the grants. */
  predicate HasGrant(grants: seq<string>, g: Grant) {
    GrantString(g) in grants
  }

  /** `hasReadGrant`: some grant is for `uri`, of any type. */
  predicate HasReadGrant(grants: seq<string>, uri: Option<string>) {
    exists s :: s in grants && ParseGrant(s).Some? && Some(ParseGrant(s).value.grantFor) == uri
  }

  /** `hasEditGrant`: some EDIT or ADMIN grant is for `uri`. */
  predicate HasEditGrant(grants: seq<string>, uri: Option<string>) {
    exists s :: s in grants && ParseGrant(s).Some? && Some(ParseGrant(s).value.grantFor) == uri &&
      (ParseGrant(s).value.grantType == EditType || ParseGrant(s).value.grantType == AdminType)
  }

  /** `hasAdminGrant`: the grant string "ADMIN,uri" is among the grants. */
  predicate HasAdminGrant(grants: seq<string>, uri: Option<string>) {
    uri.Some? && HasGrant(grants, Grant(AdminType, uri.value))
  }

  /** For one URI an admin grant is an edit grant, and an edit grant a read grant. */
  lemma GrantImplications(grants: seq<string>, uri: Option<string>)
    ensures HasAdminGrant(grants, uri) ==> HasEditGrant(grants, uri)
    ensures HasEditGrant(grants, uri) ==> HasReadGrant(grants, uri)
  {
    if HasAdminGrant(grants, uri) {
      var g := Grant(AdminType, uri.value);
      ParseGrantString(g);
      assert GrantString(g) in grants && ParseGrant(GrantString(g)) == Some(g);
    }
  }

  // ---------------------------------------------------------------------
  // Users and their grants

  /** `isSysAdmin`: a user holding ADMIN on the global URI. */
  predicate IsSysAdmin(env: Env, user: Option<User>) {
    user.Some? && HasGrant(user.value.grants, Grant(AdminType, env.globalUri))
  }

  /** `hasCreateCollectionGrant`: a sysadmin, or a user holding EDIT on the global URI. */
  predicate HasCreateCollectionGrant(env: Env, user: Option<User>) {
    IsSysAdmin(env, user) || (user.Some? && HasGrant(user.value.grants, Grant(EditType, env.globalUri)))
  }

  /** The grants of the groups, in group order. */
  function GroupGrants(groups: seq<UserGroup>): seq<string> {
    if |groups| == 0 then [] else groups[0].groupGrants + GroupGrants(groups[1..])
  }

  /** A group grant is exactly a grant of one of the groups. */
  lemma {:induction false} GroupGrantsMembers(groups: seq<UserGroup>, s: string)
    ensures s in GroupGrants(groups) <==> exists i :: 0 <= i < |groups| && s in groups[i].groupGrants
  {
    if |groups| > 0 {
      GroupGrantsMembers(groups[1..], s);
      if s in GroupGrants(groups[1..]) {
        var i :| 0 <= i < |groups[1..]| && s in groups[1..][i].groupGrants;
        assert s in groups[i + 1].groupGrants;
      }
      if exists i :: 0 <= i < |groups| && s in groups[i].groupGrants {
        var i :| 0 <= i < |groups| && s in groups[i].groupGrants;
        if i > 0 {
          assert s in groups[1..][i - 1].groupGrants;
        }
      }
    }
  }

  /** `getAllGrants`: nothing for no user, else its own grants followed by its groups' grants. */
  function AllGrants(user: Option<User>): (r: seq<string>)
    ensures user.None? ==> r == []
    ensures user.Some? ==> |r| >= |user.value.grants| && r[..|user.value.grants|] == user.value.grants
  {
    if user.None? then [] else user.value.grants + GroupGrants(user.value.groups)
  }

  /** The loop of `getAllUserGroupGrants` followed by the concatenation of `getAllGrants`. */
  method GetAllGrants(user: Option<User>) returns (grants: seq<string>)
    ensures grants == AllGrants(user)
  {
    if user.None? {
      return [];
    }
    var groups := user.value.groups;
    var fromGroups := [];
    for i := 0 to |groups|
      invariant fromGroups + GroupGrants(groups[i..]) == GroupGrants(groups)
    {
      assert groups[i..][1..] == groups[i + 1..];
      fromGroups := fromGroups + groups[i].groupGrants;
    }
    grants := user.value.grants + fromGroups;
  }

  /** A user has every grant of its own and of each of its groups, and no other. */
  lemma AllGrantsMembers(user: User, s: string)
    ensures s in AllGrants(Some(user)) <==>
      s in user.grants || exists i :: 0 <= i < |user.groups| && s in user.groups[i].groupGrants
  {
    GroupGrantsMembers(user.groups, s);
  }

  /** No user: no grants, no sysadmin, no right to create collections. */
  lemma NoUserNoGrants(env: Env)
    ensures AllGrants(None) == []
    ensures !IsSysAdmin(env, None) && !HasCreateCollectionGrant(env, None)
    ensures forall uri :: !HasReadGrant(AllGrants(None), uri)
  {
  }

  // ---------------------------------------------------------------------
  // The id an object is authorized through

  /** `getLastParent(Object)` of the rules: an item's collection, or the collection itself, walked to its root. */
  function RootOf(env: Env, o: ImejiObject): Option<string> {
    match o
    case ItemObject(c, _) => GetLastParent(env.hierarchy, c)
    case CollectionObject(id, _, _) => GetLastParent(env.hierarchy, id)
    case _ => None
  }

  /** `getId`: the URI the grants of an object are looked up for (null when the walk ends at null). */
  function GetId(env: Env, obj: Option<ImejiObject>): (r: Option<string>)
    ensures obj.None? ==> r == Some(env.globalUri)
    ensures obj.Some? && obj.value.UserObject? ==> r == Some(obj.value.user.id)
  {
    if obj.None? then Some(env.globalUri)
    else match obj.value
      case ItemObject(_, _) => RootOf(env, obj.value)
      case CollectionObject(_, _, _) => RootOf(env, obj.value)
      case UserObject(u) => Some(u.id)
      case UriObject(uri) => GetLastParent(env.hierarchy, uri)
      case StringObject(s) => GetLastParent(env.hierarchy, s)
      case _ => Some(env.globalUri)
  }

  /** An item is authorized through its collection's root, exactly as that collection's URI is. */
  lemma ItemAuthorizedThroughCollection(env: Env, c: string, st: Status)
    ensures GetId(env, Some(ItemObject(c, st))) == GetId(env, Some(UriObject(c)))
  {
  }

  /** In an acyclic hierarchy, the id of an item or collection is never a subcollection node. */
  lemma GetIdIsRoot(env: Env, rank: map<string, nat>, obj: ImejiObject)
    requires Ranked(env.hierarchy, rank)
    ensures obj.ItemObject? || obj.CollectionObject? || obj.UriObject? || obj.StringObject? ==>
      var r := GetId(env, Some(obj));
      r.Some? ==> r.value !in env.hierarchy.nodes
  {
    match obj
    case ItemObject(c, _) => GetLastParentIsRoot(env.hierarchy, rank, c);
    case CollectionObject(id, _, _) => GetLastParentIsRoot(env.hierarchy, rank, id);
    case UriObject(u) => GetLastParentIsRoot(env.hierarchy, rank, u);
    case StringObject(u) => GetLastParentIsRoot(env.hierarchy, rank, u);
    case _ =>
  }

  // ---------------------------------------------------------------------
  // Public objects

  /** `isPublicStatus`. */
  predicate IsPublicStatus(s: Status) {
    s == Released || s == Withdrawn
  }

  /** `isPublic`: organizations always; nothing else for an anonymous user in private mode. */
  predicate IsPublic(env: Env, obj: Option<ImejiObject>, user: Option<User>) {
    if obj.Some? && obj.value.OrganizationObject? then true
    else if env.privateMode && user.None? then false
    else if obj.Some? && obj.value.ItemObject? then IsPublicStatus(obj.value.itemStatus)
    else if obj.Some? && obj.value.CollectionObject? then IsPublicStatus(obj.value.collectionStatus)
    else obj.Some? && obj.value.PersonObject?
  }

  /** Items and collections are public iff released or withdrawn, unless hidden by private mode. */
  lemma PublicRules(env: Env, obj: ImejiObject, user: Option<User>)
    ensures env.privateMode && user.None? ==> (IsPublic(env, Some(obj), user) <==> obj.OrganizationObject?)
    ensures !(env.privateMode && user.None?) && obj.ItemObject? ==>
      (IsPublic(env, Some(obj), user) <==> obj.itemStatus in {Released, Withdrawn})
    ensures !(env.privateMode && user.None?) && obj.CollectionObject? ==>
      (IsPublic(env, Some(obj), user) <==> obj.collectionStatus in {Released, Withdrawn})
    ensures IsPublic(env, Some(obj), user) ==>
      obj.OrganizationObject? || obj.PersonObject? || obj.ItemObject? || obj.CollectionObject?
  {
  }

  /** `isSubcollection`: a collection with a parent. */
  predicate IsSubcollection(obj: Option<ImejiObject>) {
    obj.Some? && obj.value.CollectionObject? && obj.value.parent.Some?
  }

  // ---------------------------------------------------------------------
  // The rules

  predicate Read(env: Env, user: Option<User>, obj: Option<ImejiObject>) {
    IsPublic(env, obj, user) || IsSysAdmin(env, user) || HasReadGrant(AllGrants(user), GetId(env, obj))
  }

  predicate Update(env: Env, user: Option<User>, obj: Option<ImejiObject>) {
    IsSysAdmin(env, user) || HasEditGrant(AllGrants(user), GetId(env, obj))
  }

  predicate Administrate(env: Env, user: Option<User>, obj: Option<ImejiObject>) {
    !IsSubcollection(obj) && (IsSysAdmin(env, user) || HasAdminGrant(AllGrants(user), GetId(env, obj)))
  }

  /** `delete`: an item needs update rights, anything else administration rights. */
  predicate Delete(env: Env, user: Option<User>, obj: Option<ImejiObject>) {
    if obj.Some? && obj.value.ItemObject? then Update(env, user, obj) else Administrate(env, user, obj)
  }

  /** `create`: an item needs update rights on its collection's URI, a collection the create grant, anything else a sysadmin. */
  predicate Create(env: Env, user: Option<User>, obj: Option<ImejiObject>) {
    if obj.Some? && obj.value.ItemObject? then Update(env, user, Some(UriObject(obj.value.itemCollection)))
    else if obj.Some? && obj.value.CollectionObject? then HasCreateCollectionGrant(env, user)
    else IsSysAdmin(env, user)
  }

  /** `isShared`: a read, edit or admin grant on the object's id. */
  predicate IsShared(env: Env, user: Option<User>, obj: Option<ImejiObject>) {
    var grants := AllGrants(user);
    var id := GetId(env, obj);
    HasReadGrant(grants, id) || HasEditGrant(grants, id) || HasAdminGrant(grants, id)
  }

  /** A sysadmin reads and updates everything, and administrates everything but subcollections. */
  lemma SysAdminRights(env: Env, user: Option<User>, obj: Option<ImejiObject>)
    requires IsSysAdmin(env, user)
    ensures Read(env, user, obj) && Update(env, user, obj) && Create(env, user, obj)
    ensures Administrate(env, user, obj) <==> !IsSubcollection(obj)
    ensures Delete(env, user, obj) <==> !IsSubcollection(obj)
  {
  }

  /** Nobody administrates a subcollection, not even a sysadmin, so only its items can be deleted through it. */
  lemma SubcollectionNotAdministrated(env: Env, user: Option<User>, obj: Option<ImejiObject>)
    requires IsSubcollection(obj)
    ensures !Administrate(env, user, obj) && !Delete(env, user, obj)
  {
  }

  /** Deleting an item is updating it; deleting anything else is administrating it. */
  lemma DeleteRule(env: Env, user: Option<User>, obj: Option<ImejiObject>)
    ensures obj.Some? && obj.value.ItemObject? ==> (Delete(env, user, obj) <==> Update(env, user, obj))
    ensures !(obj.Some? && obj.value.ItemObject?) ==> (Delete(env, user, obj) <==> Administrate(env, user, obj))
  {
  }

  /** The rights are ordered: administrating implies updating, updating implies reading. */
  lemma RightsOrdered(env: Env, user: Option<User>, obj: Option<ImejiObject>)
    ensures Administrate(env, user, obj) ==> Update(env, user, obj)
    ensures Update(env, user, obj) ==> Read(env, user, obj)
    ensures IsShared(env, user, obj) <==> HasReadGrant(AllGrants(user), GetId(env, obj))
  {
    GrantImplications(AllGrants(user), GetId(env, obj));
  }

  /** Without a user only public objects can be read, and nothing can be changed. */
  lemma AnonymousRights(env: Env, obj: Option<ImejiObject>)
    ensures Read(env, None, obj) <==> IsPublic(env, obj, None)
    ensures !Update(env, None, obj) && !Administrate(env, None, obj) && !Delete(env, None, obj)
    ensures !Create(env, None, obj)
  {
  }
}
