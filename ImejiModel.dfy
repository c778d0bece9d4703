// The imeji objects the authorization rules and the collection hierarchy
// look at (de.mpg.imeji.logic.model): only the fields those rules read.
module ImejiModel {
  import opened Wrappers

  /** `Properties.Status`. */
  datatype Status = Pending | Released | Withdrawn

  /** A user group with its grant strings. */
  datatype UserGroup = UserGroup(groupGrants: seq<string>)

  /** A user: its id, its own grant strings and the groups it belongs to. */
  datatype User = User(id: string, grants: seq<string>, groups: seq<UserGroup>)

  /**
   * The kinds of object an authorization request can be about. An item
   * always belongs to a collection; a collection has a parent only when
   * it is a subcollection.
   */
  datatype ImejiObject =
    | ItemObject(itemCollection: string, itemStatus: Status)
    | CollectionObject(collectionId: string, parent: Option<string>, collectionStatus: Status)
    | UserObject(user: User)
    | UriObject(uri: string)
    | StringObject(text: string)
    | GroupObject(group: UserGroup)
    | StatementObject
    | OrganizationObject
    | PersonObject
    | OtherObject
}
