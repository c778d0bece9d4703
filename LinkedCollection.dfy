// A collection linked from another one (de.mpg.imeji.logic.model.LinkedCollection):
// either an internal imeji collection, named by its URI, or an external one,
// named by a URI and a name. The stored type name and the flag the web form
// edits are two fields kept in step by the setters.
module LinkedCollection {
  import opened Wrappers
  import opened JavaStrings

  /** The names of `LinkedCollectionType`. */
  const Internal: string := "INTERNAL"
  const External: string := "EXTERNAL"

  /** The type name the flag stands for. */
  function TypeName(internal: bool): (r: string)
    ensures r == Internal || r == External
  {
    if internal then Internal else External
  }

  /** The flag a stored type name gives: only "INTERNAL" is internal. */
  predicate IsInternal(linkedCollectionType: string) {
    linkedCollectionType == Internal
  }

  /** The flag survives a trip through the type name, and so does each of the two names. */
  lemma TypeNameRoundTrip(internal: bool, name: string)
    ensures IsInternal(TypeName(internal)) == internal
    ensures name == Internal || name == External ==> TypeName(IsInternal(name)) == name
  {
  }

  class LinkedCollection {
    var id: Option<string>
    var linkedCollectionType: string
    var description: Option<string>
    var internalCollectionType: bool
    var internalCollectionUri: Option<string>
    var internalCollectionName: Option<string>
    var externalCollectionUri: Option<string>
    var externalCollectionName: Option<string>

    /** The form's flag agrees with the stored type name. */
    predicate Valid()
      reads this
    {
      internalCollectionType == IsInternal(linkedCollectionType)
    }

    /** A new link: internal, with nothing else set. */
    constructor()
      ensures Valid() && linkedCollectionType == Internal && internalCollectionType
      ensures id.None? && description.None?
      ensures internalCollectionUri.None? && internalCollectionName.None?
      ensures externalCollectionUri.None? && externalCollectionName.None?
    {
      id := None;
      linkedCollectionType := Internal;
      description := None;
      internalCollectionType := true;
      internalCollectionUri := None;
      internalCollectionName := None;
      externalCollectionUri := None;
      externalCollectionName := None;
    }

    /** `hasId`: it has been stored before. */
    method HasId() returns (r: bool)
      ensures r <==> id.Some?
    {
      r := id.Some?;
    }

    /** `setLinkedCollectionType`: the name is stored and the flag follows it. */
    method SetLinkedCollectionType(collectionType: string)
      modifies this
      ensures linkedCollectionType == collectionType && internalCollectionType == (collectionType == Internal)
      ensures Valid()
      ensures id == old(id) && description == old(description)
      ensures internalCollectionUri == old(internalCollectionUri) && internalCollectionName == old(internalCollectionName)
      ensures externalCollectionUri == old(externalCollectionUri) && externalCollectionName == old(externalCollectionName)
    {
      linkedCollectionType := collectionType;
      if linkedCollectionType == Internal {
        internalCollectionType := true;
      } else {
        internalCollectionType := false;
      }
    }

    /** `isInternalCollectionType`: read from the stored name, not from the flag. */
    method IsInternalCollectionType() returns (r: bool)
      ensures r <==> linkedCollectionType == Internal
      ensures Valid() ==> r == internalCollectionType
    {
      r := linkedCollectionType == Internal;
    }

    /** `setInternalCollectionType`: the flag is stored and the name follows it; the other fields stay. */
    method SetInternalCollectionType(internal: bool)
      modifies this
      ensures internalCollectionType == internal && linkedCollectionType == TypeName(internal)
      ensures Valid() && IsInternal(linkedCollectionType) == internal
      ensures id == old(id) && description == old(description)
      ensures internalCollectionUri == old(internalCollectionUri) && internalCollectionName == old(internalCollectionName)
      ensures externalCollectionUri == old(externalCollectionUri) && externalCollectionName == old(externalCollectionName)
    {
      internalCollectionType := internal;
      if internal {
        linkedCollectionType := Internal;
      } else {
        linkedCollectionType := External;
      }
    }

    /**
     * `dataConsistent`: inconsistent only when an internal link has a URI
     * but no name (the linked collection is missing from the store).
     */
    method DataConsistent() returns (r: bool)
      ensures !r <==> internalCollectionType && internalCollectionName.None? && internalCollectionUri.Some?
      ensures internalCollectionUri.None? || internalCollectionName.Some? || !internalCollectionType ==> r
    {
      r := !(internalCollectionType && internalCollectionName.None? && internalCollectionUri.Some?);
    }

    /** `prepareJSFFields`: the flag is set again from the stored name, whatever it was. */
    method PrepareJsfFields()
      modifies this
      ensures Valid() && linkedCollectionType == old(linkedCollectionType)
      ensures id == old(id) && description == old(description)
      ensures internalCollectionUri == old(internalCollectionUri) && internalCollectionName == old(internalCollectionName)
      ensures externalCollectionUri == old(externalCollectionUri) && externalCollectionName == old(externalCollectionName)
    {
      if linkedCollectionType == Internal {
        internalCollectionType := true;
      } else {
        internalCollectionType := false;
      }
    }

    /** `resetInternalFields`: the internal URI and name are cleared, nothing else. */
    method ResetInternalFields()
      modifies this
      ensures internalCollectionUri.None? && internalCollectionName.None?
      ensures id == old(id) && description == old(description)
      ensures linkedCollectionType == old(linkedCollectionType) && internalCollectionType == old(internalCollectionType)
      ensures externalCollectionUri == old(externalCollectionUri) && externalCollectionName == old(externalCollectionName)
    {
      internalCollectionName := None;
      internalCollectionUri := None;
    }

    /** `resetExternalFields`: the external URI and name are cleared, nothing else. */
    method ResetExternalFields()
      modifies this
      ensures externalCollectionUri.None? && externalCollectionName.None?
      ensures id == old(id) && description == old(description)
      ensures linkedCollectionType == old(linkedCollectionType) && internalCollectionType == old(internalCollectionType)
      ensures internalCollectionUri == old(internalCollectionUri) && internalCollectionName == old(internalCollectionName)
    {
      externalCollectionUri := None;
      externalCollectionName := None;
    }

    /**
     * `isEmpty`: an internal link is empty without a URI, an external one
     * without a URI or without a name (null or "").
     */
    method IsEmpty() returns (r: bool)
      ensures linkedCollectionType == Internal ==> (r <==> NullOrEmpty(internalCollectionUri))
      ensures linkedCollectionType != Internal ==>
        (r <==> NullOrEmpty(externalCollectionUri) || NullOrEmpty(externalCollectionName))
      ensures r ==> NullOrEmpty(internalCollectionUri) || NullOrEmpty(externalCollectionUri) || NullOrEmpty(externalCollectionName)
    {
      if linkedCollectionType == Internal {
        if internalCollectionUri.None? {
          return true;
        } else if internalCollectionUri.value == "" {
          return true;
        }
        return false;
      } else {
        if externalCollectionUri.None? || externalCollectionName.None? {
          return true;
        } else {
          if externalCollectionUri.value == "" || externalCollectionName.value == "" {
            return true;
          }
        }
        return false;
      }
    }
  }
}
