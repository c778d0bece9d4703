// The validation of a collection before it is created, updated or deleted
// (de.mpg.imeji.logic.validation.impl.CollectionValidator). The validator
// keeps the messages of one UnprocessableError in a field, appending one
// message per failed rule; `validate` throws when any message was added
// and otherwise removes the empty additional informations. The checks
// whose code lies outside this model (HTML tags in the description, the
// URL format of linked collections, the geo-coordinates, the configured
// collection types) are given through `Env`.
module CollectionValidator {
  import opened Wrappers
  import opened JavaStrings

  /** A null name is `None`: `trim()` on it throws a NullPointerException. */
  datatype Organization = Organization(name: Option<string>)

  datatype Person = Person(familyName: Option<string>, orcid: Option<string>, organizations: seq<Organization>)

  /** `ContainerAdditionalInfo`: a labelled text with an optional url. */
  datatype AdditionalInfo = AdditionalInfo(infoLabel: Option<string>, text: Option<string>, url: Option<string>)

  /** What the validator reads of a `LinkedCollection`. */
  datatype LinkedCollectionRef = LinkedCollectionRef(internal: bool, externalUri: Option<string>)

  /** What the validator reads of a `CollectionImeji`; a null list of types is an empty one. */
  datatype Collection = Collection(
    title: Option<string>,
    description: Option<string>,
    doi: Option<string>,
    isSubCollection: bool,
    types: seq<string>,
    linkedCollections: seq<LinkedCollectionRef>,
    additionalInfos: seq<AdditionalInfo>,
    persons: seq<Person>)

  /**
   * The configuration and the checks the validator calls into: the
   * configured collection types, the labels of the DOI and geo-coordinates
   * infos, `StringHelper.hasInvalidTags`, `Validation.validateURLFormat`
   * and the geo-coordinates check.
   */
  datatype Env = Env(
    collectionTypes: Option<string>,
    doiLabel: string,
    geoLabel: string,
    hasInvalidTags: Option<string> -> bool,
    validUrl: Option<string> -> bool,
    validGeo: string -> bool)

  /** How `validate` ends: it returns (having cleaned up the collection), throws the accumulated error, or throws a NullPointerException. */
  datatype Outcome = Accepted(collection: Collection) | Rejected(messages: seq<Message>) | NullPointer

  /** The messages an UnprocessableError collects; `MessageKey` gives each one's key. */
  datatype Message =
    | BadFormatDescription
    | NeedTitle
    | TitleSemicolon
    | NeedTypes
    | LinkedCollectionUrl
    | InfoNeedLabel
    | GeoCoordinatesFormat
    | NeedOneAuthor
    | OrcidFormat
    | AuthorNeedOrganization
    | AuthorNeedFamilyName
    | OrganizationNeedName
    | DoiFormat

  function MessageKey(m: Message): string {
    match m
    case BadFormatDescription => "error_bad_format_description"
    case NeedTitle => "error_collection_need_title"
    case TitleSemicolon => "error_collection_title_semicolon_not_allowed"
    case NeedTypes => "error_collection_need_types"
    case LinkedCollectionUrl => "error_full_web_url_linked_collections"
    case InfoNeedLabel => "error_additionalinfo_need_label"
    case GeoCoordinatesFormat => "error_geo_coordinates_format"
    case NeedOneAuthor => "error_collection_need_one_author"
    case OrcidFormat => "error_orcid_format"
    case AuthorNeedOrganization => "error_author_need_one_organization"
    case AuthorNeedFamilyName => "error_author_need_one_family_name"
    case OrganizationNeedName => "error_organization_need_name"
    case DoiFormat => "error_doi_creation_error_doi_format"
  }

  // ---------------------------------------------------------------------
  // DOI

  /** The whole text matches `10\..+/.+`: "10.", at least one character, some '/', at least one character. */
  predicate MatchesDoiGeneral(d: string) {
    |d| >= 3 && d[..3] == "10." &&
    exists p :: 4 <= p < |d| - 1 && d[p] == '/' && NoLineTerminator(d[3..p]) && NoLineTerminator(d[p + 1..])
  }

  /** The whole text matches `([^.]+[.])*[^.]+`: it neither starts nor ends with '.', and no '.' follows a '.'. */
  predicate MatchesDoiPrefix(p: string) {
    |p| > 0 && p[0] != '.' && p[|p| - 1] != '.' &&
    forall i :: 0 <= i < |p| - 1 && p[i] == '.' ==> p[i + 1] != '.'
  }

  /** The first field of a split on `c` is the text before the first `c`, when the text does not start with `c`. */
  lemma SplitFirstField(s: string, c: char)
    requires |s| > 0 && s[0] != c && c in s
    ensures IndexOfChar(s, c) >= 0
    ensures |Split(s, [c])| > 0 && Split(s, [c])[0] == s[..IndexOfChar(s, c)]
  {
    ContainsChar(s, c);
    IndexOfSingle(s, c);
    var fs := Fields(s, [c]);
    assert fs[0] == s[..IndexOfChar(s, c)];
    if |DropTrailingEmpty(fs)| == 0 {
      DropTrailingEmptyOnlyEmpty(fs, 0);
    }
  }

  /** `doi.split("/")[0]` for a DOI that passed the general match: the text before its first '/'. */
  function DoiPrefix(d: string): (r: string)
    requires MatchesDoiGeneral(d)
    ensures var k := IndexOfChar(d, '/'); 3 <= k && r == d[..k]
  {
    var p :| 4 <= p < |d| - 1 && d[p] == '/' && NoLineTerminator(d[3..p]) && NoLineTerminator(d[p + 1..]);
    assert IndexOfChar(d, '/') >= 3 by {
      if IndexOfChar(d, '/') < 0 {
        IndexOfCharFirst(d, '/', p);
      }
      assert d[0] == '1' && d[1] == '0' && d[2] == '.' by { assert d[..3] == "10."; }
    }
    SplitFirstField(d, '/');
    Split(d, "/")[0]
  }

  /** `validateDOIComplyWithHandbook` (encoding a Java string as UTF-8 never fails). */
  predicate DoiComplies(doi: Option<string>) {
    !NullOrEmpty(doi) && MatchesDoiGeneral(doi.value) && MatchesDoiPrefix(DoiPrefix(doi.value))
  }

  /** `validateDOI`: an error for a DOI that is given and does not comply; none for a null or empty DOI. */
  function DoiMessages(doi: Option<string>): (r: seq<Message>)
    ensures NullOrEmpty(doi) ==> r == []
    ensures r == [] <==> NullOrEmpty(doi) || DoiComplies(doi)
    ensures r != [] ==> r == [DoiFormat]
  {
    if !NullOrEmpty(doi) && !DoiComplies(doi) then [DoiFormat] else []
  }

  /**
   * A complying DOI is "10." and a prefix rest without '/' whose dotted
   * segments are all non-empty, then '/', then a non-empty suffix, none of
   * it holding a line terminator.
   */
  lemma DoiDecompose(d: string)
    requires DoiComplies(Some(d))
    ensures var k := IndexOfChar(d, '/');
      4 <= k < |d| - 1 && d[..3] == "10." && '/' !in d[..k] &&
      MatchesDoiPrefix(d[..k]) && NoLineTerminator(d[3..])
  {
    var k := IndexOfChar(d, '/');
    var p :| 4 <= p < |d| - 1 && d[p] == '/' && NoLineTerminator(d[3..p]) && NoLineTerminator(d[p + 1..]);
    assert '/' !in d[..k] by {
      forall j | 0 <= j < k ensures d[j] != '/' { IndexOfCharFirst(d, '/', j); }
    }
    assert k <= p by {
      if p < k { IndexOfCharFirst(d, '/', p); }
    }
    assert k != 3 by {
      assert d[..3][2] == '.';
    }
    NoLineTerminatorAround(d, p);
  }

  /** The two parts around the '/' matched by `.+` make the whole text after "10." free of line terminators. */
  lemma NoLineTerminatorAround(d: string, p: int)
    requires 3 <= p < |d| && d[p] == '/' && NoLineTerminator(d[3..p]) && NoLineTerminator(d[p + 1..])
    ensures NoLineTerminator(d[3..])
  {
    var rest := d[3..];
    forall j | 0 <= j < |rest| ensures !IsLineTerminator(rest[j]) {
      if j + 3 < p {
        assert rest[j] == d[3..p][j];
      } else if j + 3 > p {
        assert rest[j] == d[p + 1..][j + 3 - p - 1];
      }
    }
  }

  /** Conversely, every such text complies. */
  lemma DoiCompose(r: string, s: string)
    requires r != "" && s != "" && '/' !in r && NoLineTerminator(r) && NoLineTerminator(s)
    requires MatchesDoiPrefix("10." + r)
    ensures DoiComplies(Some("10." + r + "/" + s))
  {
    var d := "10." + r + "/" + s;
    var k := 3 + |r|;
    assert d[..3] == "10.";
    assert d[k] == '/' && d[3..k] == r && d[k + 1..] == s;
    assert MatchesDoiGeneral(d);
    assert '/' !in d[..k] by {
      assert d[..k] == "10." + r;
    }
    IndexOfCharIs(d, '/', k);
    assert DoiPrefix(d) == "10." + r;
  }

  /** A DOI of the handbook's form passes. */
  lemma DoiAcceptedExample()
    ensures DoiComplies(Some("10.1000/182"))
  {
    ExampleDoiParts();
    DoiCompose("1000", "182");
  }

  /** The parts of the example DOI meet the requirements of `DoiCompose` and make up the DOI. */
  lemma ExampleDoiParts()
    ensures '/' !in "1000" && NoLineTerminator("1000") && NoLineTerminator("182")
    ensures MatchesDoiPrefix("10." + "1000")
    ensures "10." + "1000" + "/" + "182" == "10.1000/182"
  {
    var d := "10." + "1000" + "/" + "182";
    assert d[0] == '1' && d[1] == '0' && d[2] == '.' && d[3] == '1' && d[4] == '0' && d[5] == '0';
    assert d[6] == '0' && d[7] == '/' && d[8] == '1' && d[9] == '8' && d[10] == '2';
    assert MatchesDoiPrefix("10." + "1000");
  }

  // ---------------------------------------------------------------------
  // ORCID

  /** The character allowed at position `i` of `(\d{4}-){3}\d{3}[\dX]`. */
  predicate OrcidCharAllowed(i: int, c: char) {
    if i % 5 == 4 then c == '-'
    else if i == 18 then IsDigit(c) || c == 'X'
    else IsDigit(c)
  }

  /** The whole text matches `(\d{4}-){3}\d{3}[\dX]` (`\d` is ASCII only). */
  predicate MatchesOrcid(s: string) {
    |s| == 19 && forall i :: 0 <= i < |s| ==> OrcidCharAllowed(i, s[i])
  }

  /** `validateORCIDString`: false for the empty string, else the full match. */
  predicate ValidateOrcidString(orcid: string) {
    if orcid != "" then MatchesOrcid(orcid) else false
  }

  /** Sixteen characters written in groups of four with dashes between them. */
  function FormatOrcid(d: string): (r: string)
    requires |d| == 16
  {
    d[..4] + "-" + d[4..8] + "-" + d[8..12] + "-" + d[12..]
  }

  lemma FormatOrcidAt(d: string, i: int)
    requires |d| == 16 && 0 <= i < 19
    ensures |FormatOrcid(d)| == 19
    ensures FormatOrcid(d)[i] == if i % 5 == 4 then '-' else d[i - i / 5]
  {
    var r := FormatOrcid(d);
    assert r == d[..4] + "-" + d[4..8] + "-" + d[8..12] + "-" + d[12..];
    if i < 4 {
      assert r[i] == d[..4][i];
    } else if i == 4 {
    } else if i < 9 {
      assert r[i] == d[4..8][i - 5];
    } else if i == 9 {
    } else if i < 14 {
      assert r[i] == d[8..12][i - 10];
    } else if i == 14 {
    } else {
      assert r[i] == d[12..][i - 15];
    }
  }

  /** An ORCID matches exactly when its fifteen first characters are digits and the last a digit or 'X'. */
  lemma OrcidFormatMatches(d: string)
    requires |d| == 16
    ensures MatchesOrcid(FormatOrcid(d)) <==>
      (forall j :: 0 <= j < 15 ==> IsDigit(d[j])) && (IsDigit(d[15]) || d[15] == 'X')
  {
    var r := FormatOrcid(d);
    forall i | 0 <= i < 19 {
      FormatOrcidAt(d, i);
    }
    if MatchesOrcid(r) {
      forall j | 0 <= j < 16 ensures OrcidCharAllowed(j + j / 4, d[j]) {
        FormatOrcidAt(d, j + j / 4);
        assert OrcidCharAllowed(j + j / 4, r[j + j / 4]);
      }
    }
  }

  /** Every matching ORCID is its sixteen characters written in groups of four. */
  lemma OrcidIsFormatted(s: string)
    requires MatchesOrcid(s)
    ensures s == FormatOrcid(s[..4] + s[5..9] + s[10..14] + s[15..])
  {
    var d := s[..4] + s[5..9] + s[10..14] + s[15..];
    forall i | 0 <= i < 19 ensures s[i] == FormatOrcid(d)[i] {
      FormatOrcidAt(d, i);
      assert OrcidCharAllowed(i, s[i]);
    }
  }

  /** The ISO 7064 MOD 11-2 running total of an ORCID's first digits. */
  function OrcidTotal(digits: string): nat
    requires AllDigits(digits)
    decreases |digits|
  {
    if |digits| == 0 then 0
    else (OrcidTotal(digits[..|digits| - 1]) + DigitValue(digits[|digits| - 1])) * 2
  }

  /** The ISO 7064 MOD 11-2 check character of the fifteen first digits of an ORCID. */
  function OrcidCheckChar(digits: string): (c: char)
    requires AllDigits(digits)
    ensures IsDigit(c) || c == 'X'
  {
    var k := (12 - OrcidTotal(digits) % 11) % 11;
    if k == 10 then 'X' else DigitChar(k)
  }

  lemma {:induction false} OrcidTotalZeros(z: string)
    requires forall i :: 0 <= i < |z| ==> z[i] == '0'
    ensures AllDigits(z) && OrcidTotal(z) == 0
    decreases |z|
  {
    if |z| > 0 {
      OrcidTotalZeros(z[..|z| - 1]);
    }
  }

  /** The check character is not verified: an ORCID whose last character is not its check character still matches. */
  lemma OrcidCheckDigitIgnored()
    ensures MatchesOrcid("0000-0000-0000-0000")
    ensures OrcidCheckChar("000000000000000") == '1'
  {
    var s := "0000-0000-0000-0000";
    forall i | 0 <= i < |s| ensures OrcidCharAllowed(i, s[i]) {
    }
    OrcidTotalZeros("000000000000000");
  }

  // ---------------------------------------------------------------------
  // Persons

  // `s.trim()` is empty exactly when `IsBlank(s)` (`JavaStrings.TrimBlank`), so
  // the emptiness tests on trimmed names are written with `IsBlank`. A null
  // name throws before it is tested (`OrgsThrow`, `PersonThrows`); the
  // message functions read it as unnamed, which matters only where nothing
  // throws.

  /** A name that is given and not blank once trimmed. */
  predicate Named(name: Option<string>) {
    name.Some? && !IsBlank(name.value)
  }

  /** `validateOrgsName` throws a NullPointerException on an organization without a name. */
  predicate OrgsThrow(orgs: seq<Organization>) {
    exists i :: 0 <= i < |orgs| && orgs[i].name.None?
  }

  /** `validatePerson` throws in `validateOrgsName`, or on a null family name. */
  predicate PersonThrows(p: Person) {
    OrgsThrow(p.organizations) || p.familyName.None?
  }

  /** `validateCollectionPersons` throws when one of the persons does. */
  predicate PersonsThrow(ps: seq<Person>) {
    exists i :: 0 <= i < |ps| && PersonThrows(ps[i])
  }

  /** The messages of `validateOrgsName`: one per organization whose trimmed name is empty. */
  function OrgsNameMessages(orgs: seq<Organization>): seq<Message>
    decreases |orgs|
  {
    if |orgs| == 0 then []
    else OrgsNameMessages(orgs[..|orgs| - 1]) + (if !Named(orgs[|orgs| - 1].name) then [OrganizationNeedName] else [])
  }

  /** No organization message exactly when every organization has a name that is not blank. */
  lemma {:induction false} OrgsNameMessagesEmpty(orgs: seq<Organization>)
    ensures OrgsNameMessages(orgs) == [] <==> forall i :: 0 <= i < |orgs| ==> Named(orgs[i].name)
    decreases |orgs|
  {
    if |orgs| > 0 {
      var n := |orgs| - 1;
      OrgsNameMessagesEmpty(orgs[..n]);
      assert forall i :: 0 <= i < n ==> orgs[..n][i] == orgs[i];
    }
  }

  /** `validatePerson`'s result: a family name that is not blank once trimmed, and an organization. */
  predicate PersonValid(p: Person) {
    Named(p.familyName) && |p.organizations| > 0
  }

  /** The ORCID of a valid person is checked only when it is given and not blank. */
  function OrcidMessages(orcid: Option<string>): (r: seq<Message>)
    ensures r == [] <==> orcid.None? || IsWhitespaceOnly(orcid.value) || MatchesOrcid(orcid.value)
  {
    if orcid.Some? && !IsWhitespaceOnly(orcid.value) && !ValidateOrcidString(orcid.value) then [OrcidFormat] else []
  }

  /** The messages of `validatePerson`: the organizations' first, then the family name, the organizations and the ORCID in that order of precedence. */
  function PersonMessages(p: Person): seq<Message> {
    OrgsNameMessages(p.organizations) +
    (if !Named(p.familyName) then [AuthorNeedFamilyName]
     else if |p.organizations| == 0 then [AuthorNeedOrganization]
     else OrcidMessages(p.orcid))
  }

  /** A person raises no message exactly when every organization is named, the family name is not blank, there is an organization and the ORCID is blank or well-formed. */
  predicate PersonAcceptable(p: Person) {
    (forall i :: 0 <= i < |p.organizations| ==> Named(p.organizations[i].name)) &&
    Named(p.familyName) && |p.organizations| > 0 &&
    (p.orcid.None? || IsWhitespaceOnly(p.orcid.value) || MatchesOrcid(p.orcid.value))
  }

  lemma PersonMessagesEmpty(p: Person)
    ensures PersonMessages(p) == [] <==> PersonAcceptable(p)
    ensures PersonAcceptable(p) ==> PersonValid(p)
  {
    OrgsNameMessagesEmpty(p.organizations);
  }

  /** The persons `validateCollectionPersons` keeps, in order. */
  function ValidPersons(ps: seq<Person>): seq<Person>
    decreases |ps|
  {
    if |ps| == 0 then []
    else ValidPersons(ps[..|ps| - 1]) + (if PersonValid(ps[|ps| - 1]) then [ps[|ps| - 1]] else [])
  }

  /** The valid persons are kept: none are kept exactly when none is valid. */
  lemma {:induction false} ValidPersonsEmpty(ps: seq<Person>)
    ensures ValidPersons(ps) == [] <==> forall i :: 0 <= i < |ps| ==> !PersonValid(ps[i])
    decreases |ps|
  {
    if |ps| > 0 {
      var n := |ps| - 1;
      ValidPersonsEmpty(ps[..n]);
      assert forall i :: 0 <= i < n ==> ps[..n][i] == ps[i];
    }
  }

  /** The messages of all persons, in order. */
  function PersonsMessages(ps: seq<Person>): seq<Message>
    decreases |ps|
  {
    if |ps| == 0 then []
    else PersonsMessages(ps[..|ps| - 1]) + PersonMessages(ps[|ps| - 1])
  }

  lemma {:induction false} PersonsMessagesEmpty(ps: seq<Person>)
    ensures PersonsMessages(ps) == [] <==> forall i :: 0 <= i < |ps| ==> PersonMessages(ps[i]) == []
    decreases |ps|
  {
    if |ps| > 0 {
      var n := |ps| - 1;
      var init := PersonsMessages(ps[..n]);
      var last := PersonMessages(ps[n]);
      assert PersonsMessages(ps) == init + last;
      assert init + last == [] <==> init == [] && last == [] by {
        if init + last == [] { assert |init + last| == |init| + |last|; }
      }
      PersonsMessagesEmpty(ps[..n]);
      if forall i :: 0 <= i < |ps| ==> PersonMessages(ps[i]) == [] {
        forall i | 0 <= i < n
          ensures PersonMessages(ps[..n][i]) == []
        {
          assert ps[..n][i] == ps[i];
        }
      }
      if init == [] && last == [] {
        forall i | 0 <= i < |ps|
          ensures PersonMessages(ps[i]) == []
        {
          if i < n {
            assert ps[i] == ps[..n][i];
          }
        }
      }
    }
  }

  /** `validateCollectionPersons`: the persons' messages, then one more when no person is valid. */
  function CollectionPersonsMessages(ps: seq<Person>): seq<Message> {
    PersonsMessages(ps) + (if ValidPersons(ps) == [] then [NeedOneAuthor] else [])
  }

  /** The persons raise nothing exactly when there is one and all are acceptable; with no valid person the author message is raised. */
  lemma CollectionPersonsMessagesSpec(ps: seq<Person>)
    ensures CollectionPersonsMessages(ps) == [] <==>
      |ps| > 0 && forall i :: 0 <= i < |ps| ==> PersonAcceptable(ps[i])
    ensures (forall i :: 0 <= i < |ps| ==> !PersonValid(ps[i])) ==> NeedOneAuthor in CollectionPersonsMessages(ps)
  {
    PersonsMessagesEmpty(ps);
    ValidPersonsEmpty(ps);
    forall i | 0 <= i < |ps| {
      PersonMessagesEmpty(ps[i]);
    }
  }

  // ---------------------------------------------------------------------
  // Container metadata

  /** The collection types are configured when they are given and not blank. */
  predicate TypesConfigured(env: Env) {
    env.collectionTypes.Some? && !IsWhitespaceOnly(env.collectionTypes.value)
  }

  /** `validateLinkedCollections`: every external linked collection has a well-formed URL. */
  predicate LinkedCollectionsValid(env: Env, ls: seq<LinkedCollectionRef>) {
    forall i :: 0 <= i < |ls| && !ls[i].internal ==> env.validUrl(ls[i].externalUri)
  }

  /** The messages one additional info raises (its label is not null). */
  function InfoMessages(env: Env, info: AdditionalInfo): (r: seq<Message>)
    ensures NullOrEmpty(info.text) ==> r == []
  {
    (if NullOrEmpty(info.infoLabel) && !NullOrEmpty(info.text) then [InfoNeedLabel] else []) +
    (if info.infoLabel == Some(env.doiLabel) && !NullOrEmpty(info.text) then DoiMessages(info.text) else []) +
    (if info.infoLabel == Some(env.geoLabel) && !NullOrEmpty(info.text) && !env.validGeo(info.text.value)
     then [GeoCoordinatesFormat] else [])
  }

  /** An info raises nothing when it has a label or no text, its DOI complies and its geo-coordinates are valid. */
  predicate InfoAcceptable(env: Env, info: AdditionalInfo) {
    !NullOrEmpty(info.text) ==>
      !NullOrEmpty(info.infoLabel) &&
      (info.infoLabel == Some(env.doiLabel) ==> DoiComplies(info.text)) &&
      (info.infoLabel == Some(env.geoLabel) ==> env.validGeo(info.text.value))
  }

  /** The messages of `validateAdditionalInfos`, in order. */
  function InfosMessages(env: Env, infos: seq<AdditionalInfo>): seq<Message>
    decreases |infos|
  {
    if |infos| == 0 then []
    else InfosMessages(env, infos[..|infos| - 1]) + InfoMessages(env, infos[|infos| - 1])
  }

  /** The messages of one more info follow those of the infos before it. */
  lemma InfosMessagesStep(env: Env, infos: seq<AdditionalInfo>, i: nat)
    requires i < |infos|
    ensures InfosMessages(env, infos[..i + 1]) == InfosMessages(env, infos[..i]) + InfoMessages(env, infos[i])
  {
    assert infos[..i + 1][..i] == infos[..i];
  }

  /** One info raises nothing exactly when it is acceptable. */
  lemma InfoMessagesEmpty(env: Env, info: AdditionalInfo)
    ensures InfoMessages(env, info) == [] <==> InfoAcceptable(env, info)
  {
  }

  lemma {:induction false} InfosMessagesEmpty(env: Env, infos: seq<AdditionalInfo>)
    ensures InfosMessages(env, infos) == [] <==> forall i :: 0 <= i < |infos| ==> InfoAcceptable(env, infos[i])
    decreases |infos|
  {
    if |infos| > 0 {
      var n := |infos| - 1;
      var init := InfosMessages(env, infos[..n]);
      var last := InfoMessages(env, infos[n]);
      assert InfosMessages(env, infos) == init + last;
      assert init + last == [] <==> init == [] && last == [] by {
        if init + last == [] { assert |init + last| == |init| + |last|; }
      }
      InfosMessagesEmpty(env, infos[..n]);
      InfoMessagesEmpty(env, infos[n]);
      if forall i :: 0 <= i < |infos| ==> InfoAcceptable(env, infos[i]) {
        forall i | 0 <= i < n
          ensures InfoAcceptable(env, infos[..n][i])
        {
          assert infos[..n][i] == infos[i];
        }
      }
      if init == [] && last == [] {
        forall i | 0 <= i < |infos|
          ensures InfoAcceptable(env, infos[i])
        {
          if i < n {
            assert infos[i] == infos[..n][i];
          }
        }
      }
    }
  }

  /** The messages of `validateContainerMetadata` for a collection with a title. */
  function ContainerMessages(env: Env, c: Collection): seq<Message> {
    (if env.hasInvalidTags(c.description) then [BadFormatDescription] else []) +
    (if NullOrEmpty(c.title) then [NeedTitle] else []) +
    (if c.title.Some? && Contains(c.title.value, ";") then [TitleSemicolon] else []) +
    (if !c.isSubCollection && TypesConfigured(env) && |c.types| == 0 then [NeedTypes] else []) +
    (if !LinkedCollectionsValid(env, c.linkedCollections) then [LinkedCollectionUrl] else []) +
    InfosMessages(env, c.additionalInfos)
  }

  /** What the container metadata of a collection with a title must satisfy. */
  predicate MetadataAcceptable(env: Env, c: Collection) {
    !env.hasInvalidTags(c.description) &&
    c.title.Some? && c.title.value != "" && ';' !in c.title.value &&
    (c.isSubCollection || !TypesConfigured(env) || |c.types| > 0) &&
    LinkedCollectionsValid(env, c.linkedCollections) &&
    forall i :: 0 <= i < |c.additionalInfos| ==> InfoAcceptable(env, c.additionalInfos[i])
  }

  lemma ContainerMessagesEmpty(env: Env, c: Collection)
    requires c.title.Some?
    ensures ContainerMessages(env, c) == [] <==> MetadataAcceptable(env, c)
    ensures ';' in c.title.value ==> TitleSemicolon in ContainerMessages(env, c)
  {
    ContainsChar(c.title.value, ';');
    InfosMessagesEmpty(env, c.additionalInfos);
  }

  /** `validateContainerMetadata` throws a NullPointerException on a null title, and on an info with a null label. */
  predicate MetadataThrows(c: Collection) {
    c.title.None? || exists i :: 0 <= i < |c.additionalInfos| && c.additionalInfos[i].infoLabel.None?
  }

  // ---------------------------------------------------------------------
  // validate

  /**
   * `validate` throws a NullPointerException in the container metadata,
   * which a DELETE skips, or in the persons.
   */
  predicate ThrowsNullPointer(c: Collection, isDelete: bool) {
    (!isDelete && MetadataThrows(c)) || PersonsThrow(c.persons)
  }

  /** All messages `validate` accumulates, in order. */
  function Messages(env: Env, c: Collection, isDelete: bool): seq<Message> {
    (if isDelete then [] else ContainerMessages(env, c)) +
    CollectionPersonsMessages(c.persons) +
    DoiMessages(c.doi)
  }

  /** An additional info `cleanUp` removes: no text and no url. */
  predicate Removable(info: AdditionalInfo) {
    NullOrEmpty(info.text) && NullOrEmpty(info.url)
  }

  /** The infos `cleanUp` keeps, in order. */
  function Kept(infos: seq<AdditionalInfo>): seq<AdditionalInfo>
    decreases |infos|
  {
    if |infos| == 0 then []
    else Kept(infos[..|infos| - 1]) + (if Removable(infos[|infos| - 1]) then [] else [infos[|infos| - 1]])
  }

  /** `cleanUp` keeps exactly the infos that have a text or a url. */
  lemma {:induction false} KeptMembers(infos: seq<AdditionalInfo>, x: AdditionalInfo)
    ensures x in Kept(infos) <==> x in infos && !Removable(x)
    decreases |infos|
  {
    if |infos| > 0 {
      var n := |infos| - 1;
      KeptMembers(infos[..n], x);
      assert infos == infos[..n] + [infos[n]];
    }
  }

  /** Infos of which none is removable are kept as they are. */
  lemma {:induction false} KeptNothingRemovable(infos: seq<AdditionalInfo>)
    requires forall i :: 0 <= i < |infos| ==> !Removable(infos[i])
    ensures Kept(infos) == infos
    decreases |infos|
  {
    if |infos| > 0 {
      KeptNothingRemovable(infos[..|infos| - 1]);
      assert infos[..|infos| - 1] + [infos[|infos| - 1]] == infos;
    }
  }

  /** Cleaning up twice removes nothing more. */
  lemma KeptIdempotent(infos: seq<AdditionalInfo>)
    ensures Kept(Kept(infos)) == Kept(infos)
  {
    var k := Kept(infos);
    forall i | 0 <= i < |k| ensures !Removable(k[i]) {
      KeptMembers(infos, k[i]);
    }
    KeptNothingRemovable(k);
  }

  /** The outcome of `validate`. */
  function ValidationOutcome(env: Env, c: Collection, isDelete: bool): Outcome {
    if ThrowsNullPointer(c, isDelete) then NullPointer
    else
      var ms := Messages(env, c, isDelete);
      if ms != [] then Rejected(ms) else Accepted(c.(additionalInfos := Kept(c.additionalInfos)))
  }

  /** Everything a collection must satisfy to be accepted. */
  predicate Acceptable(env: Env, c: Collection, isDelete: bool) {
    (isDelete || MetadataAcceptable(env, c)) &&
    |c.persons| > 0 &&
    (forall i :: 0 <= i < |c.persons| ==> PersonAcceptable(c.persons[i])) &&
    (NullOrEmpty(c.doi) || DoiComplies(c.doi))
  }

  /**
   * Unless it throws a NullPointerException, `validate` accepts a
   * collection exactly when it is acceptable, and then returns it with
   * the removable infos dropped; otherwise it throws all messages.
   */
  lemma ValidationAccepts(env: Env, c: Collection, isDelete: bool)
    requires !ThrowsNullPointer(c, isDelete)
    ensures ValidationOutcome(env, c, isDelete).Accepted? <==> Acceptable(env, c, isDelete)
    ensures ValidationOutcome(env, c, isDelete).Accepted? ==>
      ValidationOutcome(env, c, isDelete).collection.additionalInfos == Kept(c.additionalInfos)
    ensures !ValidationOutcome(env, c, isDelete).Accepted? ==>
      ValidationOutcome(env, c, isDelete) == Rejected(Messages(env, c, isDelete))
  {
    CollectionPersonsMessagesSpec(c.persons);
    if !isDelete {
      ContainerMessagesEmpty(env, c);
    }
  }

  /** A title containing ';' is rejected, as is a collection without a valid author. */
  lemma RejectionCauses(env: Env, c: Collection, isDelete: bool)
    requires !ThrowsNullPointer(c, isDelete)
    ensures !isDelete && ';' in c.title.value ==>
      ValidationOutcome(env, c, isDelete).Rejected? &&
      TitleSemicolon in ValidationOutcome(env, c, isDelete).messages
    ensures (forall i :: 0 <= i < |c.persons| ==> !PersonValid(c.persons[i])) ==>
      ValidationOutcome(env, c, isDelete).Rejected? &&
      NeedOneAuthor in ValidationOutcome(env, c, isDelete).messages
  {
    CollectionPersonsMessagesSpec(c.persons);
    if !isDelete {
      ContainerMessagesEmpty(env, c);
    }
  }

  /** A DELETE throws only on a person, reports only persons and DOI, and a null or empty DOI adds nothing. */
  lemma DeleteSkipsMetadata(env: Env, c: Collection)
    ensures ThrowsNullPointer(c, true) <==> PersonsThrow(c.persons)
    ensures Messages(env, c, true) == CollectionPersonsMessages(c.persons) + DoiMessages(c.doi)
    ensures NullOrEmpty(c.doi) ==> Messages(env, c, true) == CollectionPersonsMessages(c.persons)
  {
    assert [] + CollectionPersonsMessages(c.persons) == CollectionPersonsMessages(c.persons);
  }

  // ---------------------------------------------------------------------
  // The validator

  lemma AppendAssoc(a: seq<Message>, b: seq<Message>, c: seq<Message>)
    ensures a + b + c == a + (b + c)
  {
  }

  class CollectionValidator {
    /** The messages of the UnprocessableError being accumulated. */
    var exception: seq<Message>

    constructor()
      ensures exception == []
    {
      exception := [];
    }

    /** `validate`: reset the error, check metadata, persons and DOI, then throw or clean up. */
    method Validate(env: Env, c: Collection, isDelete: bool) returns (r: Outcome)
      modifies this
      ensures r == ValidationOutcome(env, c, isDelete)
      ensures !ThrowsNullPointer(c, isDelete) ==> exception == Messages(env, c, isDelete)
    {
      exception := [];
      var npe := ValidateContainerMetadata(env, c, isDelete);
      if npe {
        return NullPointer;
      }
      ghost var metadata := exception;
      assert metadata == if isDelete then [] else ContainerMessages(env, c);
      npe := ValidateCollectionPersons(c.persons);
      if npe {
        return NullPointer;
      }
      ValidateDoi(c.doi);
      assert exception == Messages(env, c, isDelete) by {
        assert exception == metadata + CollectionPersonsMessages(c.persons) + DoiMessages(c.doi);
      }
      if exception != [] {
        return Rejected(exception);
      }
      var kept := CleanUp(c.additionalInfos);
      r := Accepted(c.(additionalInfos := kept));
    }

    /** `validateContainerMetadata`; `npe` reports the NullPointerException it throws. */
    method ValidateContainerMetadata(env: Env, c: Collection, isDelete: bool) returns (npe: bool)
      modifies this
      ensures npe == (!isDelete && MetadataThrows(c))
      ensures !npe ==> exception == old(exception) + (if isDelete then [] else ContainerMessages(env, c))
    {
      if isDelete {
        return false;
      }
      ghost var e0 := exception;
      ghost var tags: seq<Message> := if env.hasInvalidTags(c.description) then [BadFormatDescription] else [];
      if env.hasInvalidTags(c.description) {
        exception := exception + [BadFormatDescription];
      }
      assert exception == e0 + tags;
      ghost var title: seq<Message> := if NullOrEmpty(c.title) then [NeedTitle] else [];
      if NullOrEmpty(c.title) {
        exception := exception + [NeedTitle];
      }
      assert exception == e0 + tags + title;
      if c.title.None? {
        return true;
      }
      ghost var semicolon: seq<Message> := if Contains(c.title.value, ";") then [TitleSemicolon] else [];
      if Contains(c.title.value, ";") {
        exception := exception + [TitleSemicolon];
      }
      assert exception == e0 + tags + title + semicolon;
      ghost var types: seq<Message> := if !c.isSubCollection && TypesConfigured(env) && |c.types| == 0 then [NeedTypes] else [];
      if !c.isSubCollection && TypesConfigured(env) && |c.types| == 0 {
        exception := exception + [NeedTypes];
      }
      assert exception == e0 + tags + title + semicolon + types;
      var linkedValid := ValidateLinkedCollections(env, c.linkedCollections);
      ghost var linked: seq<Message> := if !linkedValid then [LinkedCollectionUrl] else [];
      if !linkedValid {
        exception := exception + [LinkedCollectionUrl];
      }
      assert exception == e0 + tags + title + semicolon + types + linked;
      npe := ValidateAdditionalInfos(env, c.additionalInfos);
      if !npe {
        ghost var infos := InfosMessages(env, c.additionalInfos);
        assert ContainerMessages(env, c) == tags + title + semicolon + types + linked + infos;
        AppendAssoc(e0, tags, title);
        AppendAssoc(e0, tags + title, semicolon);
        AppendAssoc(e0, tags + title + semicolon, types);
        AppendAssoc(e0, tags + title + semicolon + types, linked);
        AppendAssoc(e0, tags + title + semicolon + types + linked, infos);
      }
    }

    /** `validateAdditionalInfos`; an info with a null label throws a NullPointerException. */
    method ValidateAdditionalInfos(env: Env, infos: seq<AdditionalInfo>) returns (npe: bool)
      modifies this
      ensures npe <==> exists i :: 0 <= i < |infos| && infos[i].infoLabel.None?
      ensures !npe ==> exception == old(exception) + InfosMessages(env, infos)
    {
      ghost var e0 := exception;
      for i := 0 to |infos|
        invariant forall j :: 0 <= j < i ==> infos[j].infoLabel.Some?
        invariant exception == e0 + InfosMessages(env, infos[..i])
      {
        npe := ValidateAdditionalInfo(env, infos[i]);
        if npe {
          return;
        }
        InfosMessagesStep(env, infos, i);
        AppendAssoc(e0, InfosMessages(env, infos[..i]), InfoMessages(env, infos[i]));
      }
      assert infos[..|infos|] == infos;
      return false;
    }

    /** The body of the loop of `validateAdditionalInfos`, for one info. */
    method ValidateAdditionalInfo(env: Env, info: AdditionalInfo) returns (npe: bool)
      modifies this
      ensures npe == info.infoLabel.None?
      ensures !npe ==> exception == old(exception) + InfoMessages(env, info)
    {
      ghost var e0 := exception;
      ghost var needLabel: seq<Message> := if NullOrEmpty(info.infoLabel) && !NullOrEmpty(info.text) then [InfoNeedLabel] else [];
      if NullOrEmpty(info.infoLabel) && !NullOrEmpty(info.text) {
        exception := exception + [InfoNeedLabel];
      }
      if info.infoLabel.None? {
        return true;
      }
      assert exception == e0 + needLabel;
      ghost var doi: seq<Message> := if info.infoLabel == Some(env.doiLabel) && !NullOrEmpty(info.text) then DoiMessages(info.text) else [];
      if info.infoLabel.value == env.doiLabel && !NullOrEmpty(info.text) {
        ValidateDoi(info.text);
      }
      assert exception == e0 + needLabel + doi;
      ghost var geo: seq<Message> :=
        if info.infoLabel == Some(env.geoLabel) && !NullOrEmpty(info.text) && !env.validGeo(info.text.value) then [GeoCoordinatesFormat] else [];
      if info.infoLabel.value == env.geoLabel && !NullOrEmpty(info.text) && !env.validGeo(info.text.value) {
        exception := exception + [GeoCoordinatesFormat];
      }
      assert exception == e0 + needLabel + doi + geo;
      AppendAssoc(e0, needLabel, doi);
      AppendAssoc(e0, needLabel + doi, geo);
      return false;
    }

    /** `validateCollectionPersons`; `npe` reports the NullPointerException a person throws. */
    method ValidateCollectionPersons(ps: seq<Person>) returns (npe: bool)
      modifies this
      ensures npe == PersonsThrow(ps)
      ensures !npe ==> exception == old(exception) + CollectionPersonsMessages(ps)
    {
      var validPersons: seq<Person> := [];
      for i := 0 to |ps|
        invariant forall j :: 0 <= j < i ==> !PersonThrows(ps[j])
        invariant validPersons == ValidPersons(ps[..i])
        invariant exception == old(exception) + PersonsMessages(ps[..i])
      {
        var valid;
        valid, npe := ValidatePerson(ps[i]);
        if npe {
          return;
        }
        if valid {
          validPersons := validPersons + [ps[i]];
        }
        assert ps[..i + 1][..i] == ps[..i];
      }
      assert ps[..|ps|] == ps;
      if |validPersons| == 0 {
        exception := exception + [NeedOneAuthor];
      }
      npe := false;
    }

    /** `validatePerson`; `npe` reports the NullPointerException it throws. */
    method ValidatePerson(p: Person) returns (valid: bool, npe: bool)
      modifies this
      ensures npe == PersonThrows(p)
      ensures !npe ==> valid == PersonValid(p) && exception == old(exception) + PersonMessages(p)
    {
      npe := ValidateOrgsName(p.organizations);
      if npe || p.familyName.None? {
        return false, true;
      }
      if !IsBlank(p.familyName.value) {
        if |p.organizations| > 0 {
          if p.orcid.Some? && !IsWhitespaceOnly(p.orcid.value) && !ValidateOrcidString(p.orcid.value) {
            exception := exception + [OrcidFormat];
          }
          return true, false;
        } else {
          exception := exception + [AuthorNeedOrganization];
        }
      } else {
        exception := exception + [AuthorNeedFamilyName];
      }
      return false, false;
    }

    /** `validateOrgsName`; `npe` reports the NullPointerException a null name throws. */
    method ValidateOrgsName(orgs: seq<Organization>) returns (npe: bool)
      modifies this
      ensures npe == OrgsThrow(orgs)
      ensures !npe ==> exception == old(exception) + OrgsNameMessages(orgs)
    {
      for i := 0 to |orgs|
        invariant forall j :: 0 <= j < i ==> orgs[j].name.Some?
        invariant exception == old(exception) + OrgsNameMessages(orgs[..i])
      {
        if orgs[i].name.None? {
          return true;
        }
        if IsBlank(orgs[i].name.value) {
          exception := exception + [OrganizationNeedName];
        }
        assert orgs[..i + 1][..i] == orgs[..i];
      }
      assert orgs[..|orgs|] == orgs;
      npe := false;
    }

    /** `validateDOI`. */
    method ValidateDoi(doi: Option<string>)
      modifies this
      ensures exception == old(exception) + DoiMessages(doi)
    {
      if !NullOrEmpty(doi) && !DoiComplies(doi) {
        exception := exception + [DoiFormat];
      }
    }

    /** `validateLinkedCollections`: stops at the first external linked collection with a bad URL. */
    method ValidateLinkedCollections(env: Env, ls: seq<LinkedCollectionRef>) returns (ok: bool)
      ensures ok == LinkedCollectionsValid(env, ls)
    {
      for i := 0 to |ls|
        invariant forall j :: 0 <= j < i && !ls[j].internal ==> env.validUrl(ls[j].externalUri)
      {
        if !ls[i].internal && !env.validUrl(ls[i].externalUri) {
          return false;
        }
      }
      return true;
    }

    /** `cleanUp`: collect the infos without text and url, then remove them all. */
    method CleanUp(infos: seq<AdditionalInfo>) returns (kept: seq<AdditionalInfo>)
      ensures kept == Kept(infos)
    {
      var toBeRemoved: seq<AdditionalInfo> := [];
      for i := 0 to |infos|
        invariant forall x :: x in toBeRemoved <==> x in infos[..i] && Removable(x)
      {
        if Removable(infos[i]) {
          toBeRemoved := toBeRemoved + [infos[i]];
        }
        assert infos[..i + 1] == infos[..i] + [infos[i]];
      }
      kept := [];
      for i := 0 to |infos|
        invariant kept == Kept(infos[..i])
      {
        assert infos[..i + 1][..i] == infos[..i];
        assert infos[i] in infos[..|infos|];
        if infos[i] !in toBeRemoved {
          kept := kept + [infos[i]];
        }
      }
      assert infos[..|infos|] == infos;
    }
  }
}
