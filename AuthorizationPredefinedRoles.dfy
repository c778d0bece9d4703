// The predefined roles of the older authorization API
// (de.mpg.imeji.logic.auth.authorization.AuthorizationPredefinedRoles):
// each role is a list of grants, one per grant type, on a container, a
// profile or the base URI of the instance.
module AuthorizationPredefinedRoles {
  import opened Wrappers

  datatype GrantType =
    | Create | Read | Update | Delete | Admin
    | ReadContent | UpdateContent | DeleteContent | AdminContent

  /** A grant of one type on one URI. */
  datatype Grant = Grant(grantType: GrantType, grantFor: string)

  // ---------------------------------------------------------------------
  // toGrantList

  /** One grant per type, in order, all on `uri`. */
  function GrantList(types: seq<GrantType>, uri: string): (r: seq<Grant>)
    ensures |r| == |types|
    ensures forall i :: 0 <= i < |r| ==> r[i] == Grant(types[i], uri)
  {
    seq(|types|, i requires 0 <= i < |types| => Grant(types[i], uri))
  }

  /** What `URI.create` throws. */
  datatype UriError = NullPointer | IllegalArgument

  /**
   * `URI.create(uri)`: null throws a NullPointerException, a string that
   * java.net.URI's RFC 2396 parser rejects an IllegalArgumentException.
   * `parses` stands for that parser, which is not part of this model.
   */
  function CreateUri(uri: Option<string>, parses: string -> bool): (r: Result<string, UriError>)
    ensures r.Success? <==> uri.Some? && parses(uri.value)
    ensures r.Success? ==> r.value == uri.value
    ensures uri.None? ==> r == Failure(NullPointer)
    ensures uri.Some? && !parses(uri.value) ==> r == Failure(IllegalArgument)
  {
    match uri
    case None => Failure(NullPointer)
    case Some(u) => if parses(u) then Success(u) else Failure(IllegalArgument)
  }

  /**
   * `toGrantList` with its exceptions: `URI.create` is first called for
   * the first type, so an empty array gives an empty list whatever the
   * URI, and otherwise the URI's failure is the list's.
   */
  function GrantListOf(types: seq<GrantType>, uri: Option<string>, parses: string -> bool)
    : (r: Result<seq<Grant>, UriError>)
    ensures |types| == 0 ==> r == Success([])
    ensures |types| > 0 ==> (r.Success? <==> CreateUri(uri, parses).Success?)
    ensures |types| > 0 && r.Failure? ==> r.error == CreateUri(uri, parses).error
    ensures r.Success? && |types| > 0 ==> uri.Some? && r.value == GrantList(types, uri.value)
  {
    if |types| == 0 then Success([])
    else
      match CreateUri(uri, parses)
      case Failure(e) => Failure(e)
      case Success(u) => Success(GrantList(types, u))
  }

  /** `toGrantList`: the loop that fills a fresh list, creating the URI once per type. */
  method ToGrantList(types: seq<GrantType>, uri: Option<string>, parses: string -> bool)
    returns (r: Result<seq<Grant>, UriError>)
    ensures r == GrantListOf(types, uri, parses)
  {
    var l: seq<Grant> := [];
    for i := 0 to |types|
      invariant i > 0 ==> uri.Some? && parses(uri.value)
      invariant i > 0 ==> l == GrantList(types[..i], uri.value)
      invariant i == 0 ==> l == []
    {
      var created := CreateUri(uri, parses);
      if created.Failure? {
        return Failure(created.error);
      }
      l := l + [Grant(types[i], created.value)];
    }
    assert types[..|types|] == types;
    r := Success(l);
  }

  /** Splitting the types splits the grant list. */
  lemma GrantListAppend(a: seq<GrantType>, b: seq<GrantType>, uri: string)
    ensures GrantList(a + b, uri) == GrantList(a, uri) + GrantList(b, uri)
  {
  }

  /** The types of a grant list on one URI, read back. */
  function TypesOn(l: seq<Grant>, uri: string): set<GrantType> {
    set g | g in l && g.grantFor == uri :: g.grantType
  }

  lemma TypesOnGrantList(types: seq<GrantType>, uri: string)
    ensures TypesOn(GrantList(types, uri), uri) == set t | t in types
  {
    var l := GrantList(types, uri);
    forall t | t in types ensures t in TypesOn(l, uri) {
      var i :| 0 <= i < |types| && types[i] == t;
      assert l[i] == Grant(t, uri);
    }
  }

  // ---------------------------------------------------------------------
  // The type arrays of the roles

  const CreatorTypes: seq<GrantType> :=
    [Create, Read, Update, Delete, Admin, ReadContent, UpdateContent, DeleteContent, AdminContent]
  const RestrictedTypes: seq<GrantType> := [Create, Read, Update, Delete, Admin]
  const AllTypes: seq<GrantType> :=
    [Read, ReadContent, Admin, AdminContent, Create, Delete, DeleteContent, Update, UpdateContent]
  const ReadTypes: seq<GrantType> := [Read, ReadContent]
  const AdminTypes: seq<GrantType> := [Delete, Admin, AdminContent]
  const ReadAndUploadTypes: seq<GrantType> := [Read, ReadContent, UpdateContent]
  const EditableTypes: seq<GrantType> := [Read, Update, ReadContent, UpdateContent]
  const DeletableTypes: seq<GrantType> := [Read, Update, Delete, ReadContent, UpdateContent, DeleteContent]
  const ContainerAdminTypes: seq<GrantType> :=
    [Read, Update, Delete, Admin, ReadContent, UpdateContent, DeleteContent, AdminContent]

  /** Every grant type occurs in the creator array and in the array of `all`. */
  lemma EveryType(t: GrantType)
    ensures t in CreatorTypes && t in AllTypes
  {
    match t {
      case Create => assert CreatorTypes[0] == t && AllTypes[4] == t;
      case Read => assert CreatorTypes[1] == t && AllTypes[0] == t;
      case Update => assert CreatorTypes[2] == t && AllTypes[7] == t;
      case Delete => assert CreatorTypes[3] == t && AllTypes[5] == t;
      case Admin => assert CreatorTypes[4] == t && AllTypes[2] == t;
      case ReadContent => assert CreatorTypes[5] == t && AllTypes[1] == t;
      case UpdateContent => assert CreatorTypes[6] == t && AllTypes[8] == t;
      case DeleteContent => assert CreatorTypes[7] == t && AllTypes[6] == t;
      case AdminContent => assert CreatorTypes[8] == t && AllTypes[3] == t;
    }
  }

  // ---------------------------------------------------------------------
  // The roles; `base` stands for the instance's base URI

  function RestrictedUser(uri: string): seq<Grant> {
    GrantList(RestrictedTypes, uri)
  }

  function DefaultUser(base: string, uri: string): seq<Grant> {
    GrantList([Create], base) + RestrictedUser(uri)
  }

  function ImejiAdministrator(base: string, uri: string): seq<Grant> {
    GrantList([Admin], base) + DefaultUser(base, uri)
  }

  function ContainerCreator(uri: string): seq<Grant> { GrantList(CreatorTypes, uri) }
  function ContainerReadOnly(uri: string): seq<Grant> { GrantList(ReadTypes, uri) }
  function ContainerReadAndUpload(uri: string): seq<Grant> { GrantList(ReadAndUploadTypes, uri) }
  function ContainerEditable(uri: string): seq<Grant> { GrantList(EditableTypes, uri) }
  function ContainerDeletable(uri: string): seq<Grant> { GrantList(DeletableTypes, uri) }
  function ContainerAdmin(uri: string): seq<Grant> { GrantList(ContainerAdminTypes, uri) }

  function CollectionCreator(collectionUri: string, profileUri: string): seq<Grant> {
    ContainerCreator(collectionUri) + ContainerCreator(profileUri)
  }

  /** `all`: every type on the container, and again on the profile when one is given. */
  function All(containerUri: string, profileUri: Option<string>): seq<Grant> {
    GrantList(AllTypes, containerUri) + (if profileUri.Some? then GrantList(AllTypes, profileUri.value) else [])
  }

  function ReadRole(containerUri: string, profileUri: Option<string>): seq<Grant> {
    GrantList(ReadTypes, containerUri) + (if profileUri.Some? then GrantList(ReadTypes, profileUri.value) else [])
  }

  function Upload(containerUri: string): seq<Grant> { GrantList([Create], containerUri) }
  function Edit(containerUri: string): seq<Grant> { GrantList([UpdateContent], containerUri) }
  function DeleteRole(containerUri: string): seq<Grant> { GrantList([DeleteContent], containerUri) }
  function EditContainer(containerUri: string): seq<Grant> { GrantList([Update], containerUri) }
  function EditProfile(profileUri: string): seq<Grant> { GrantList([Update, UpdateContent], profileUri) }

  /** `admin`: the profile additionally gets DELETE_CONTENT (the array is copied one longer). */
  function AdminRole(containerUri: string, profileUri: Option<string>): seq<Grant> {
    GrantList(AdminTypes, containerUri) +
    (if profileUri.Some? then GrantList(AdminTypes + [DeleteContent], profileUri.value) else [])
  }

  function CollectionReadOnly(collectionUri: string, profileUri: string): seq<Grant> {
    ContainerReadOnly(collectionUri) + ContainerReadOnly(profileUri)
  }

  function CollectionReadAndUpload(collectionUri: string, profileUri: string): seq<Grant> {
    ContainerReadAndUpload(collectionUri) + ContainerReadOnly(profileUri)
  }

  function CollectionEditable(collectionUri: string, profileUri: string): seq<Grant> {
    ContainerEditable(collectionUri) + ContainerEditable(profileUri)
  }

  function CollectionDeletable(collectionUri: string, profileUri: string): seq<Grant> {
    ContainerDeletable(collectionUri) + ContainerDeletable(profileUri)
  }

  function CollectionAdmin(collectionUri: string, profileUri: string): seq<Grant> {
    ContainerAdmin(collectionUri) + ContainerAdmin(profileUri)
  }

  function AlbumCreator(albumUri: string): seq<Grant> { ContainerCreator(albumUri) }

  // ---------------------------------------------------------------------
  // The roles with the exceptions of `URI.create`

  /** Two `toGrantList` calls in turn: the first failure is thrown, else the lists are joined. */
  function AndThen(a: Result<seq<Grant>, UriError>, b: Result<seq<Grant>, UriError>): (r: Result<seq<Grant>, UriError>)
    ensures a.Failure? ==> r == a
    ensures a.Success? && b.Failure? ==> r == b
    ensures a.Success? && b.Success? ==> r == Success(a.value + b.value)
  {
    if a.Failure? then a else if b.Failure? then b else Success(a.value + b.value)
  }

  /** `collectionCreator`: the profile URI reaches `URI.create` whether it is null or not. */
  function CollectionCreatorOf(collectionUri: Option<string>, profileUri: Option<string>, parses: string -> bool)
    : Result<seq<Grant>, UriError>
  {
    AndThen(GrantListOf(CreatorTypes, collectionUri, parses), GrantListOf(CreatorTypes, profileUri, parses))
  }

  /** `all`: a null profile URI is skipped. */
  function AllOf(containerUri: Option<string>, profileUri: Option<string>, parses: string -> bool)
    : Result<seq<Grant>, UriError>
  {
    AndThen(GrantListOf(AllTypes, containerUri, parses),
            if profileUri.Some? then GrantListOf(AllTypes, profileUri, parses) else Success([]))
  }

  /**
   * `collectionCreator` with a null profile throws a NullPointerException,
   * where `all`, which tests the profile for null, grants on the container
   * alone; with URIs that parse, both are the grant lists of the roles.
   */
  lemma NullProfileRoles(c: string, p: Option<string>, parses: string -> bool)
    requires parses(c)
    ensures p.None? ==> CollectionCreatorOf(Some(c), p, parses) == Failure(NullPointer)
    ensures p.None? || parses(p.value) ==> AllOf(Some(c), p, parses) == Success(All(c, p))
    ensures p.Some? && parses(p.value) ==> CollectionCreatorOf(Some(c), p, parses) == Success(CollectionCreator(c, p.value))
    ensures p.Some? && !parses(p.value) ==>
      CollectionCreatorOf(Some(c), p, parses) == Failure(IllegalArgument) && AllOf(Some(c), p, parses) == Failure(IllegalArgument)
  {
  }

  // ---------------------------------------------------------------------
  // Properties of the roles

  /** A restricted user has exactly the five container rights on its own URI. */
  lemma RestrictedUserShape(uri: string)
    ensures |RestrictedUser(uri)| == 5
    ensures forall g :: g in RestrictedUser(uri) ==> g.grantFor == uri
    ensures TypesOn(RestrictedUser(uri), uri) == {Create, Read, Update, Delete, Admin}
  {
    TypesOnGrantList(RestrictedTypes, uri);
  }

  /** A default user is CREATE on the base URI followed by the restricted user. */
  lemma DefaultUserShape(base: string, uri: string)
    ensures var l := DefaultUser(base, uri);
      |l| == 6 && l[0] == Grant(Create, base) && l[1..] == RestrictedUser(uri)
  {
  }

  /** An administrator is ADMIN on the base URI followed by the default user. */
  lemma ImejiAdministratorShape(base: string, uri: string)
    ensures var l := ImejiAdministrator(base, uri);
      |l| == 7 && l[0] == Grant(Admin, base) && l[1] == Grant(Create, base) &&
      l[1..] == DefaultUser(base, uri) && l[2..] == RestrictedUser(uri)
  {
  }

  /** `all` covers every grant type on the container, and on the profile when given. */
  lemma AllShape(containerUri: string, profileUri: Option<string>)
    ensures var l := All(containerUri, profileUri);
      |l| == (if profileUri.Some? then 18 else 9) &&
      (forall t: GrantType :: Grant(t, containerUri) in l[..9]) &&
      (profileUri.Some? ==> forall t: GrantType :: Grant(t, profileUri.value) in l[9..])
  {
    var l := All(containerUri, profileUri);
    TypesOnGrantList(AllTypes, containerUri);
    forall t: GrantType ensures Grant(t, containerUri) in l[..9] {
      EveryType(t);
      assert l[..9] == GrantList(AllTypes, containerUri);
    }
    if profileUri.Some? {
      forall t: GrantType ensures Grant(t, profileUri.value) in l[9..] {
        EveryType(t);
        assert l[9..] == GrantList(AllTypes, profileUri.value);
      }
    }
  }

  /** `admin` gives three grants on the container, and four (with DELETE_CONTENT) on a given profile. */
  lemma AdminShape(containerUri: string, profileUri: Option<string>)
    ensures var l := AdminRole(containerUri, profileUri);
      |l| == (if profileUri.Some? then 7 else 3) &&
      l[..3] == [Grant(Delete, containerUri), Grant(Admin, containerUri), Grant(AdminContent, containerUri)] &&
      (profileUri.Some? ==> l[3..] == [Grant(Delete, profileUri.value), Grant(Admin, profileUri.value),
                                       Grant(AdminContent, profileUri.value), Grant(DeleteContent, profileUri.value)])
  {
  }

  /** The container roles are nested: each grants at least what the one before it grants. */
  lemma ContainerRolesNested(uri: string)
    ensures TypesOn(ContainerReadOnly(uri), uri) <= TypesOn(ContainerReadAndUpload(uri), uri)
    ensures TypesOn(ContainerReadAndUpload(uri), uri) <= TypesOn(ContainerEditable(uri), uri)
    ensures TypesOn(ContainerEditable(uri), uri) <= TypesOn(ContainerDeletable(uri), uri)
    ensures TypesOn(ContainerDeletable(uri), uri) <= TypesOn(ContainerAdmin(uri), uri)
    ensures TypesOn(ContainerAdmin(uri), uri) <= TypesOn(ContainerCreator(uri), uri)
    ensures TypesOn(ContainerCreator(uri), uri) ==
      {Create, Read, Update, Delete, Admin, ReadContent, UpdateContent, DeleteContent, AdminContent}
  {
    TypesOnGrantList(ReadTypes, uri);
    TypesOnGrantList(ReadAndUploadTypes, uri);
    TypesOnGrantList(EditableTypes, uri);
    TypesOnGrantList(DeletableTypes, uri);
    TypesOnGrantList(ContainerAdminTypes, uri);
    TypesOnGrantList(CreatorTypes, uri);
  }

  /** A two-part collection role grants on the collection first, then on the profile. */
  lemma CollectionRolesSplit(c: string, p: string)
    ensures |CollectionCreator(c, p)| == 18
    ensures |CollectionReadOnly(c, p)| == 4 && |CollectionReadAndUpload(c, p)| == 5
    ensures |CollectionEditable(c, p)| == 8 && |CollectionDeletable(c, p)| == 12 && |CollectionAdmin(c, p)| == 16
    ensures forall i :: 0 <= i < 3 ==> CollectionReadAndUpload(c, p)[i].grantFor == c
    ensures forall i :: 3 <= i < 5 ==> CollectionReadAndUpload(c, p)[i].grantFor == p
    ensures CollectionReadAndUpload(c, p)[3..] == ContainerReadOnly(p)
  {
  }
}
