# imeji core, modelled in Dafny

imeji is a web application for storing, describing and sharing research data
(images, files) in collections. This project models the parts of its logic
that decide things, module by module, one Dafny module per source file:

- the simple-search query language: its parser, escaping, operators and URL form;
- the query factory for the search index, and the search index's escaping;
- authorization:
  - grants and the role-to-grant tables;
  - who may read, update, delete and administrate what;
  - sharing;
- the collection hierarchy (parents, roots, subcollections);
- the validation of collections (titles, persons, DOIs, ORCIDs, linked collections);
- the internal storage:
  - file names, ids and resolutions;
  - MIME types and extensions;
  - the item service's creation, release, withdrawal and quota rules;
- the file servlet's byte ranges and the REST error responses;
- the configuration with its defaults and protected passwords;
- the registration rules;
- the retry queue of index requests;
- the web beans: pagination, the metadata-profile editor, the batch editor, the session and item-detail browsing;
- the helpers of the pages' script.

Java's `null` is `Option.None`. A thrown exception is a `Result.Failure` or an
error outcome. Objects whose fields the source updates in place are classes
with `modifies` frames. Computations without state are functions, with lemmas
relating them.

The modules share two helpers of their own:

- `Wrappers` holds `Option` and `Result`.
- `JavaStrings` holds the `java.lang.String` operations the source relies on:
  - `indexOf`, `split` with Java's dropping of trailing empty fields, `trim`;
  - parsing and printing of integers, Java's truncating division and 32-bit wrap-around.

`Integer.parseInt`, `Integer.valueOf` and `Long.parseLong` read their digits through `Character.digit`. So `JavaStrings.ParseInteger` accepts the decimal digits of every script in the Basic Multilingual Plane (general category Nd, Unicode 6.2 as in Java 8): "３" and "٣" read as 3. The `\d` of Java's regular expressions stays ASCII. Apart from the digit lemmas cited with `readUrlParameters`, neither helper has rows of its own below.

## Model

| member | source | states |
|---|---|---|
| Authorization.ParseGrant | src/main/java/de/mpg/imeji/logic/security/authorization/Authorization.java:136-138 | a parsed grant string prints back to the same string, with a type holding no comma |
| Authorization.ParseGrantString | src/main/java/de/mpg/imeji/logic/security/authorization/Authorization.java:136-138 | a grant survives the trip through its string form |
| Authorization.GrantImplications | src/main/java/de/mpg/imeji/logic/security/authorization/Authorization.java:161-199 | for one URI an ADMIN grant counts as an edit grant, and an edit grant as a read grant |
| Authorization.GroupGrantsMembers | src/main/java/de/mpg/imeji/logic/security/authorization/Authorization.java:223-229 | the group grants are exactly the grants of one of the user's groups |
| Authorization.AllGrants | src/main/java/de/mpg/imeji/logic/security/authorization/Authorization.java:208-215 | no user has no grants; a user's own grants come first, then those of its groups |
| Authorization.GetAllGrants | src/main/java/de/mpg/imeji/logic/security/authorization/Authorization.java:208-229 | the loops over the groups compute the same list as the specification function AllGrants |
| Authorization.AllGrantsMembers | src/main/java/de/mpg/imeji/logic/security/authorization/Authorization.java:208-229 | a grant is the user's iff it is its own or one of its groups' |
| Authorization.NoUserNoGrants | src/main/java/de/mpg/imeji/logic/security/authorization/Authorization.java:44-58 | without a user there are no grants, no sysadmin and no right to create collections |
| Authorization.GetId | src/main/java/de/mpg/imeji/logic/security/authorization/Authorization.java:241-273 | null gives the global URI; a user gives its own id |
| Authorization.ItemAuthorizedThroughCollection | src/main/java/de/mpg/imeji/logic/security/authorization/Authorization.java:241-273 | an item is authorized through the same id as its collection's URI |
| Authorization.GetIdIsRoot | src/main/java/de/mpg/imeji/logic/security/authorization/Authorization.java:241-293 | in an acyclic hierarchy the id of an item, collection or URI is never a node with a parent |
| Authorization.PublicRules | src/main/java/de/mpg/imeji/logic/security/authorization/Authorization.java:301-314 | an anonymous user in private mode sees only organizations; otherwise items and collections are public iff released or withdrawn; only organizations, persons, items and collections can be public |
| Authorization.SysAdminRights | src/main/java/de/mpg/imeji/logic/security/authorization/Authorization.java:55-128 | a sysadmin reads, updates and creates everything, and administrates and deletes everything except subcollections |
| Authorization.SubcollectionNotAdministrated | src/main/java/de/mpg/imeji/logic/security/authorization/Authorization.java:110-128 | nobody administrates or deletes a subcollection |
| Authorization.DeleteRule | src/main/java/de/mpg/imeji/logic/security/authorization/Authorization.java:110-115 | deleting an item is updating it; deleting anything else is administrating it |
| Authorization.RightsOrdered | src/main/java/de/mpg/imeji/logic/security/authorization/Authorization.java:85-152 | administrating implies updating, updating implies reading; being shared is holding a read grant on the object's id |
| Authorization.AnonymousRights | src/main/java/de/mpg/imeji/logic/security/authorization/Authorization.java:67-128 | without a user only public objects can be read, and nothing can be created, updated, administrated or deleted |
| AuthorizationPredefinedRoles.GrantList | src/main/java/de/mpg/imeji/logic/auth/authorization/AuthorizationPredefinedRoles.java:339-347 | one grant per type, in the types' order, each on the given URI |
| AuthorizationPredefinedRoles.CreateUri | src/main/java/de/mpg/imeji/logic/auth/authorization/AuthorizationPredefinedRoles.java:344 | `URI.create` of null throws a NullPointerException, of a string the URI parser rejects an IllegalArgumentException, and otherwise gives that URI |
| AuthorizationPredefinedRoles.GrantListOf | src/main/java/de/mpg/imeji/logic/auth/authorization/AuthorizationPredefinedRoles.java:339-347 | an empty type array gives no grants whatever the URI; otherwise the list fails exactly as `URI.create` does, and else is one grant per type on that URI |
| AuthorizationPredefinedRoles.ToGrantList | src/main/java/de/mpg/imeji/logic/auth/authorization/AuthorizationPredefinedRoles.java:339-347 | the loop filling a fresh list, creating the URI for each type, fails or yields exactly that grant list |
| AuthorizationPredefinedRoles.NullProfileRoles | src/main/java/de/mpg/imeji/logic/auth/authorization/AuthorizationPredefinedRoles.java:99-122 | `collectionCreator` with a null profile throws a NullPointerException while `all`, which tests for null, grants on the container alone; a malformed profile makes both throw; with URIs that parse both are their grant lists |
| AuthorizationPredefinedRoles.GrantListAppend | src/main/java/de/mpg/imeji/logic/auth/authorization/AuthorizationPredefinedRoles.java:339-347 | the grant list of two type arrays is the concatenation of their grant lists |
| AuthorizationPredefinedRoles.TypesOnGrantList | src/main/java/de/mpg/imeji/logic/auth/authorization/AuthorizationPredefinedRoles.java:339-347 | the types granted on the URI are exactly those of the array |
| AuthorizationPredefinedRoles.EveryType | src/main/java/de/mpg/imeji/logic/auth/authorization/AuthorizationPredefinedRoles.java:99-122 | every grant type is in the creator's array and in the array of `all` |
| AuthorizationPredefinedRoles.RestrictedUserShape | src/main/java/de/mpg/imeji/logic/auth/authorization/AuthorizationPredefinedRoles.java:74-78 | a restricted user gets exactly CREATE, READ, UPDATE, DELETE and ADMIN, all on its own URI |
| AuthorizationPredefinedRoles.DefaultUserShape | src/main/java/de/mpg/imeji/logic/auth/authorization/AuthorizationPredefinedRoles.java:59-66 | a default user is CREATE on the base URI followed by the restricted-user grants |
| AuthorizationPredefinedRoles.ImejiAdministratorShape | src/main/java/de/mpg/imeji/logic/auth/authorization/AuthorizationPredefinedRoles.java:85-91 | an administrator is ADMIN on the base URI followed by the default-user grants |
| AuthorizationPredefinedRoles.AllShape | src/main/java/de/mpg/imeji/logic/auth/authorization/AuthorizationPredefinedRoles.java:113-122 | `all` grants every type on the container, and again on the profile when one is given (9 or 18 grants) |
| AuthorizationPredefinedRoles.AdminShape | src/main/java/de/mpg/imeji/logic/auth/authorization/AuthorizationPredefinedRoles.java:163-174 | `admin` grants DELETE, ADMIN and ADMIN_CONTENT on the container, and on a given profile also DELETE_CONTENT |
| AuthorizationPredefinedRoles.ContainerRolesNested | src/main/java/de/mpg/imeji/logic/auth/authorization/AuthorizationPredefinedRoles.java:263-330 | the container roles grow from read-only to creator, and the creator holds every type |
| AuthorizationPredefinedRoles.CollectionRolesSplit | src/main/java/de/mpg/imeji/logic/auth/authorization/AuthorizationPredefinedRoles.java:183-244 | the collection roles have 18, 4, 5, 8, 12 and 16 grants; the collection's grants come before the profile's |
| CollectionValidator.SplitFirstField | src/main/java/de/mpg/imeji/logic/validation/impl/CollectionValidator.java:205-206 | the first field of a split on a character is the text before its first occurrence |
| CollectionValidator.DoiPrefix | src/main/java/de/mpg/imeji/logic/validation/impl/CollectionValidator.java:205-206 | the prefix of a DOI that passed the general match is the text before its first '/', at least three characters long |
| CollectionValidator.DoiMessages | src/main/java/de/mpg/imeji/logic/validation/impl/CollectionValidator.java:162-168 | a DOI raises the format error iff it is given, not empty and does not comply; otherwise no message |
| CollectionValidator.DoiDecompose | src/main/java/de/mpg/imeji/logic/validation/impl/CollectionValidator.java:178-214 | a complying DOI is "10.", a prefix without '/' whose dotted segments are all non-empty, '/', and a non-empty suffix, with no line terminator |
| CollectionValidator.NoLineTerminatorAround | src/main/java/de/mpg/imeji/logic/validation/impl/CollectionValidator.java:195 | the two parts matched by `.+` around the '/' leave no line terminator in the text after "10." |
| CollectionValidator.DoiCompose | src/main/java/de/mpg/imeji/logic/validation/impl/CollectionValidator.java:178-214 | conversely every text of that shape complies |
| CollectionValidator.DoiAcceptedExample | src/main/java/de/mpg/imeji/logic/validation/impl/CollectionValidator.java:178-214 | the handbook's "10.1000/182" complies |
| CollectionValidator.FormatOrcidAt | src/main/java/de/mpg/imeji/logic/validation/impl/CollectionValidator.java:223 | sixteen characters in dashed groups of four have 19 characters, with '-' at every fifth place |
| CollectionValidator.OrcidFormatMatches | src/main/java/de/mpg/imeji/logic/validation/impl/CollectionValidator.java:222-230 | a dashed ORCID matches iff its first fifteen characters are digits and the last a digit or 'X' |
| CollectionValidator.OrcidIsFormatted | src/main/java/de/mpg/imeji/logic/validation/impl/CollectionValidator.java:222-230 | every matching ORCID is its sixteen characters in dashed groups of four |
| CollectionValidator.OrcidCheckChar | src/main/java/de/mpg/imeji/logic/validation/impl/CollectionValidator.java:222-230 | the ISO 7064 MOD 11-2 check character is a digit or 'X' |
| CollectionValidator.OrcidTotalZeros | src/main/java/de/mpg/imeji/logic/validation/impl/CollectionValidator.java:222-230 | all-zero digits have the running total 0 |
| CollectionValidator.OrcidCheckDigitIgnored | src/main/java/de/mpg/imeji/logic/validation/impl/CollectionValidator.java:222-230 | the check character is not verified: "0000-0000-0000-0000" matches though its check character is '1' |
| CollectionValidator.OrgsNameMessagesEmpty | src/main/java/de/mpg/imeji/logic/validation/impl/CollectionValidator.java:133-139 | no organization message iff every organization's name is given and not blank |
| CollectionValidator.OrcidMessages | src/main/java/de/mpg/imeji/logic/validation/impl/CollectionValidator.java:114-116 | an ORCID raises nothing iff it is absent, blank or matches the pattern |
| CollectionValidator.PersonMessagesEmpty | src/main/java/de/mpg/imeji/logic/validation/impl/CollectionValidator.java:110-125 | a person raises nothing iff acceptable: every organization named, family name given and not blank, an organization present, ORCID blank or well-formed; an acceptable person is valid |
| CollectionValidator.ValidPersonsEmpty | src/main/java/de/mpg/imeji/logic/validation/impl/CollectionValidator.java:92-102 | no person is kept iff none is valid |
| CollectionValidator.PersonsMessagesEmpty | src/main/java/de/mpg/imeji/logic/validation/impl/CollectionValidator.java:92-102 | the persons raise nothing iff no single person does |
| CollectionValidator.CollectionPersonsMessagesSpec | src/main/java/de/mpg/imeji/logic/validation/impl/CollectionValidator.java:92-102 | the persons raise nothing iff there is one and all are acceptable; with no valid person the need-one-author message is raised |
| CollectionValidator.InfoMessages | src/main/java/de/mpg/imeji/logic/validation/impl/CollectionValidator.java:69-85 | an additional info without text raises nothing |
| CollectionValidator.InfosMessagesEmpty | src/main/java/de/mpg/imeji/logic/validation/impl/CollectionValidator.java:69-85 | the additional infos raise nothing iff each is acceptable |
| CollectionValidator.ContainerMessagesEmpty | src/main/java/de/mpg/imeji/logic/validation/impl/CollectionValidator.java:46-67 | a titled collection's metadata raise nothing iff acceptable; a title with ';' raises the title message |
| CollectionValidator.KeptMembers | src/main/java/de/mpg/imeji/logic/validation/impl/CollectionValidator.java:299-309 | `cleanUp` keeps exactly the infos that have a text or a URL |
| CollectionValidator.KeptNothingRemovable | src/main/java/de/mpg/imeji/logic/validation/impl/CollectionValidator.java:299-309 | infos none of which is removable are kept as they are |
| CollectionValidator.KeptIdempotent | src/main/java/de/mpg/imeji/logic/validation/impl/CollectionValidator.java:299-309 | cleaning up twice removes nothing more |
| CollectionValidator.ValidationAccepts | src/main/java/de/mpg/imeji/logic/validation/impl/CollectionValidator.java:33-44 | unless a null title, label, family name or organization name throws, `validate` accepts iff the collection is acceptable, returning it with the removable infos dropped; otherwise it throws all the messages |
| CollectionValidator.RejectionCauses | src/main/java/de/mpg/imeji/logic/validation/impl/CollectionValidator.java:33-67 | a title with ';' (outside DELETE) or a collection without a valid author is rejected with that message |
| CollectionValidator.DeleteSkipsMetadata | src/main/java/de/mpg/imeji/logic/validation/impl/CollectionValidator.java:33-44 | a DELETE throws the null-pointer error only on a null family name or organization name, and reports only persons and DOI |
| CollectionValidator.CollectionValidator.constructor | src/main/java/de/mpg/imeji/logic/validation/impl/CollectionValidator.java:30 | a new validator holds no messages |
| CollectionValidator.CollectionValidator.Validate | src/main/java/de/mpg/imeji/logic/validation/impl/CollectionValidator.java:33-44 | the outcome is the specification's, the null-pointer error included, and unless something throws the accumulated messages are all the messages |
| CollectionValidator.CollectionValidator.ValidateContainerMetadata | src/main/java/de/mpg/imeji/logic/validation/impl/CollectionValidator.java:46-67 | reports the null-pointer case exactly; otherwise appends the container messages (none on DELETE) |
| CollectionValidator.CollectionValidator.ValidateAdditionalInfos | src/main/java/de/mpg/imeji/logic/validation/impl/CollectionValidator.java:69-85 | throws iff some info has a null label; otherwise appends the infos' messages |
| CollectionValidator.CollectionValidator.ValidateAdditionalInfo | src/main/java/de/mpg/imeji/logic/validation/impl/CollectionValidator.java:70-84 | one info: throws iff its label is null; otherwise appends its messages |
| CollectionValidator.CollectionValidator.ValidateCollectionPersons | src/main/java/de/mpg/imeji/logic/validation/impl/CollectionValidator.java:92-102 | throws iff some person has a null family name or an organization with a null name; otherwise appends the persons' messages, and the author message when none is valid |
| CollectionValidator.CollectionValidator.ValidatePerson | src/main/java/de/mpg/imeji/logic/validation/impl/CollectionValidator.java:110-125 | throws iff the family name or an organization's name is null; otherwise returns whether the person is valid and appends its messages |
| CollectionValidator.CollectionValidator.ValidateOrgsName | src/main/java/de/mpg/imeji/logic/validation/impl/CollectionValidator.java:133-139 | throws iff some organization's name is null; otherwise appends one message per organization with a blank name |
| CollectionValidator.CollectionValidator.ValidateDoi | src/main/java/de/mpg/imeji/logic/validation/impl/CollectionValidator.java:162-168 | appends the DOI messages |
| CollectionValidator.CollectionValidator.ValidateLinkedCollections | src/main/java/de/mpg/imeji/logic/validation/impl/CollectionValidator.java:278-289 | true iff every external linked collection has a well-formed URL |
| CollectionValidator.CollectionValidator.CleanUp | src/main/java/de/mpg/imeji/logic/validation/impl/CollectionValidator.java:299-309 | returns exactly the kept infos |
| EditItemsSelectedBean.TotalPagesCeiling | src/main/java/de/mpg/imeji/presentation/item/edit/selected/EditItemsSelectedBean.java:405-407 | the page count is the row count divided by 40, rounded up: no pages for no rows, otherwise the least count holding every row |
| EditItemsSelectedBean.TableWindow | src/main/java/de/mpg/imeji/presentation/item/edit/selected/EditItemsSelectedBean.java:396-403 | every existing page shows a non-empty run of at most 40 rows inside the table, and consecutive pages meet |
| EditItemsSelectedBean.RangeClosed | src/main/java/de/mpg/imeji/presentation/item/edit/selected/EditItemsSelectedBean.java:443 | `rangeClosed(start, end)` lists start, start+1, ..., end, and nothing when end < start |
| EditItemsSelectedBean.PageListAsWrittenStartsBelowOne | src/main/java/de/mpg/imeji/presentation/item/edit/selected/EditItemsSelectedBean.java:435-444 | with 15 pages and page 11 the list as written starts at -5 and lists page 0 |
| EditItemsSelectedBean.PageListBounds | src/main/java/de/mpg/imeji/presentation/item/edit/selected/EditItemsSelectedBean.java:435-444 | the corrected page list holds at most 21 existing pages and the current one when it exists |
| EditItemsSelectedBean.PageListAgrees | src/main/java/de/mpg/imeji/presentation/item/edit/selected/EditItemsSelectedBean.java:435-444 | with more than 20 pages the corrected list is the list as written |
| EditItemsSelectedBean.WithoutIndex | src/main/java/de/mpg/imeji/presentation/item/edit/selected/EditItemsSelectedBean.java:255-260 | no remaining header has the removed index, and none is added |
| EditItemsSelectedBean.WithoutIndexKeepsOthers | src/main/java/de/mpg/imeji/presentation/item/edit/selected/EditItemsSelectedBean.java:255-260 | exactly the headers with that index go; every other header stays |
| EditItemsSelectedBean.EditItemsSelectedBean.constructor | src/main/java/de/mpg/imeji/presentation/item/edit/selected/EditItemsSelectedBean.java:70-151 | after loading the rows every column is displayed (`initHeaders`), the first page shows at most 40 rows and no page list is computed yet |
| EditItemsSelectedBean.EditItemsSelectedBean.GotToPage | src/main/java/de/mpg/imeji/presentation/item/edit/selected/EditItemsSelectedBean.java:396-403 | a page past the last is ignored; otherwise the offset, size, page number and page list move to that page, and nothing else changes; the page list is the corrected one (see Left out) |
| EditItemsSelectedBean.EditItemsSelectedBean.InitPageList | src/main/java/de/mpg/imeji/presentation/item/edit/selected/EditItemsSelectedBean.java:435-444 | the page list becomes the corrected list for the current page, never starting below page 1, and nothing else changes (the substitution is listed under Left out) |
| EditItemsSelectedBean.EditItemsSelectedBean.GetPageList | src/main/java/de/mpg/imeji/presentation/item/edit/selected/EditItemsSelectedBean.java:427-433 | a stored page list is returned as is; otherwise the corrected list is computed once and stored (see Left out); the columns, the page number and the table window stay |
| EditItemsSelectedBean.EditItemsSelectedBean.AddColumn | src/main/java/de/mpg/imeji/presentation/item/edit/selected/EditItemsSelectedBean.java:240-248 | a statement with a null or empty index adds nothing; otherwise its index is appended to the headers and to the displayed columns; the page and the table window stay |
| EditItemsSelectedBean.EditItemsSelectedBean.RemoveColumn | src/main/java/de/mpg/imeji/presentation/item/edit/selected/EditItemsSelectedBean.java:255-260 | a blank index removes nothing; otherwise the headers become those without that index; the displayed columns, the page and the table window stay |
| ElasticQueryFactory.Negate | src/main/java/de/mpg/imeji/logic/search/elasticsearch/factory/ElasticQueryFactory.java:670-672 | the query is wrapped in a must-not clause iff `not` holds, and is unchanged otherwise |
| ElasticQueryFactory.FieldQueryProperties | src/main/java/de/mpg/imeji/logic/search/elasticsearch/factory/ElasticQueryFactory.java:439-475 | a null operator behaves as EQUALS; NOT wraps the positive query; an EQUALS match unescapes back to the value |
| ElasticQueryFactory.ParseFromValue | src/main/java/de/mpg/imeji/logic/search/elasticsearch/factory/ElasticQueryFactory.java:553-559 | no "from" iff no lower bound; a lower bound follows "from" in the text |
| ElasticQueryFactory.ParseToValue | src/main/java/de/mpg/imeji/logic/search/elasticsearch/factory/ElasticQueryFactory.java:568-571 | no "to" iff no upper bound; an upper bound ends the text and follows "to" |
| ElasticQueryFactory.FromToRoundTrip | src/main/java/de/mpg/imeji/logic/search/elasticsearch/factory/ElasticQueryFactory.java:553-571 | "from a to b", with no "to" inside a, parses back to a and b |
| ElasticQueryFactory.ToBeforeFrom | src/main/java/de/mpg/imeji/logic/search/elasticsearch/factory/ElasticQueryFactory.java:553-559 | a "to" before "from" makes `substring` throw |
| ElasticQueryFactory.StatusName | src/main/java/de/mpg/imeji/logic/search/elasticsearch/factory/ElasticQueryFactory.java:832-847 | names other than private, public and discarded are kept |
| ElasticQueryFactory.FormatStatusPlain | src/main/java/de/mpg/imeji/logic/search/elasticsearch/factory/ElasticQueryFactory.java:832-847 | a value without '#' is its status name upper-cased |
| ElasticQueryFactory.FormatStatusTagged | src/main/java/de/mpg/imeji/logic/search/elasticsearch/factory/ElasticQueryFactory.java:832-847 | with one '#' only the text after it counts |
| ElasticQueryFactory.FormatStatusTrailingHash | src/main/java/de/mpg/imeji/logic/search/elasticsearch/factory/ElasticQueryFactory.java:832-847 | a trailing '#' leaves one field, and reading the second throws |
| ElasticQueryFactory.StatusNamesMapped | src/main/java/de/mpg/imeji/logic/search/elasticsearch/factory/ElasticQueryFactory.java:832-847 | private, public and discarded map to PENDING, RELEASED and WITHDRAWN |
| ElasticQueryFactory.IsORSearchGroupFirst | src/main/java/de/mpg/imeji/logic/search/elasticsearch/factory/ElasticQueryFactory.java:173-181 | the first logical relation decides whether the group is OR |
| ElasticQueryFactory.IsORSearchGroupNone | src/main/java/de/mpg/imeji/logic/search/elasticsearch/factory/ElasticQueryFactory.java:173-181 | a group without a logical relation is OR |
| ElasticQueryFactory.HasStatusQueryExists | src/main/java/de/mpg/imeji/logic/search/elasticsearch/factory/ElasticQueryFactory.java:131-140 | the loop answers true iff some element is a status pair or a group holding one at any depth |
| ElasticQueryFactory.StatusFilterAnonymous | src/main/java/de/mpg/imeji/logic/search/elasticsearch/factory/ElasticQueryFactory.java:109-123 | without a user only released objects are found |
| ElasticQueryFactory.StatusFilterLoggedIn | src/main/java/de/mpg/imeji/logic/search/elasticsearch/factory/ElasticQueryFactory.java:109-123 | for a logged-in user a query mentioning the status is not filtered; otherwise withdrawn objects are excluded |
| ElasticSearchFactoryUtil.IsSyntaxCharacter | src/main/java/de/mpg/imeji/logic/search/elasticsearch/factory/util/ElasticSearchFactoryUtil.java:207-208 | the sixteen characters the loop tests are exactly the syntax characters |
| ElasticSearchFactoryUtil.EscapeOne | src/main/java/de/mpg/imeji/logic/search/elasticsearch/factory/util/ElasticSearchFactoryUtil.java:205-211 | a syntax character gets a preceding '\'; any other character is copied |
| ElasticSearchFactoryUtil.Escape | src/main/java/de/mpg/imeji/logic/search/elasticsearch/factory/util/ElasticSearchFactoryUtil.java:203-215 | the builder loop returns the escaped text of the specification |
| ElasticSearchFactoryUtil.EscapedConcat | src/main/java/de/mpg/imeji/logic/search/elasticsearch/factory/util/ElasticSearchFactoryUtil.java:203-215 | escaping distributes over concatenation |
| ElasticSearchFactoryUtil.EscapedCons | src/main/java/de/mpg/imeji/logic/search/elasticsearch/factory/util/ElasticSearchFactoryUtil.java:203-215 | the escaped text starts with its first character escaped |
| ElasticSearchFactoryUtil.EscapedLength | src/main/java/de/mpg/imeji/logic/search/elasticsearch/factory/util/ElasticSearchFactoryUtil.java:203-215 | the output is longer by exactly the number of syntax characters |
| ElasticSearchFactoryUtil.EscapedPlain | src/main/java/de/mpg/imeji/logic/search/elasticsearch/factory/util/ElasticSearchFactoryUtil.java:203-215 | a text without syntax characters is copied unchanged |
| ElasticSearchFactoryUtil.EscapedAlphanumeric | src/main/java/de/mpg/imeji/logic/search/elasticsearch/factory/util/ElasticSearchFactoryUtil.java:203-215 | letters and digits are never escaped |
| ElasticSearchFactoryUtil.WildcardsKept | src/main/java/de/mpg/imeji/logic/search/elasticsearch/factory/util/ElasticSearchFactoryUtil.java:199-215 | the wildcards '*', '?' and '"' are left alone, while '\' and '/' are escaped |
| ElasticSearchFactoryUtil.UnescapedEscaped | src/main/java/de/mpg/imeji/logic/search/elasticsearch/factory/util/ElasticSearchFactoryUtil.java:203-215 | removing the inserted backslashes restores the input, so escaping loses nothing |
| FileServlet.RangeFieldsNoDash | src/main/java/de/mpg/imeji/presentation/storage/FileServlet.java:231-238 | no field of the split range holds a '-' |
| FileServlet.ParseIntNoDash | src/main/java/de/mpg/imeji/presentation/storage/FileServlet.java:231-238 | a field without '-' parses, if at all, to a non-negative number |
| FileServlet.ParseRangeStart | src/main/java/de/mpg/imeji/presentation/storage/FileServlet.java:231-233 | a parsed start is a non-negative int, its digits read in any script as `Integer.parseInt` reads them |
| FileServlet.ParseRangeEnd | src/main/java/de/mpg/imeji/presentation/storage/FileServlet.java:235-238 | a parsed end is -1 or a non-negative int, its digits read in any script as `Integer.parseInt` reads them; a range without a second field ends at -1 |
| FileServlet.StripUnit | src/main/java/de/mpg/imeji/presentation/storage/FileServlet.java:232 | removing "bytes=" and trimming gives back the text after the unit |
| FileServlet.RangeFieldsOf | src/main/java/de/mpg/imeji/presentation/storage/FileServlet.java:232 | the fields of "bytes=x" are the fields of x split at '-' |
| FileServlet.ParseRangeClosed | src/main/java/de/mpg/imeji/presentation/storage/FileServlet.java:231-238 | "bytes=a-b" parses back to a and b |
| FileServlet.SplitTrailingDash | src/main/java/de/mpg/imeji/presentation/storage/FileServlet.java:236 | "a-" splits into the single field a, Java dropping the trailing empty field |
| FileServlet.ParseRangeOpen | src/main/java/de/mpg/imeji/presentation/storage/FileServlet.java:231-238 | "bytes=a-" parses to a and the end -1 |
| FileServlet.ParseRangeSuffix | src/main/java/de/mpg/imeji/presentation/storage/FileServlet.java:231-233 | the suffix range "bytes=-b" has an empty first field, which throws a NumberFormatException |
| FileServlet.RangeAsWrittenInside | src/main/java/de/mpg/imeji/presentation/storage/FileServlet.java:182-208 | for a start inside the file the part is the next MAX_RANGE_LENGTH bytes cut at the end of the file, with a matching Content-Length and Content-Range |
| FileServlet.RangeAsWrittenIgnoresEnd | src/main/java/de/mpg/imeji/presentation/storage/FileServlet.java:194-205 | outside Firefox the requested end plays no part |
| FileServlet.RangeAsWrittenPastEnd | src/main/java/de/mpg/imeji/presentation/storage/FileServlet.java:194-205 | a start at or past the end still gets 206, with a Content-Length of zero or less |
| FileServlet.RangeAsWrittenLastZero | src/main/java/de/mpg/imeji/presentation/storage/FileServlet.java:201-204 | a one-byte file asked from 0 gets "bytes 0-/1", the last position dropped |
| FileServlet.RangeResponse | src/main/java/de/mpg/imeji/presentation/storage/FileServlet.java:182-208 | corrected: 416 iff no byte is at the start; otherwise 206 with 1 to MAX_RANGE_LENGTH bytes inside the file, as many as are left up to that maximum, and a complete Content-Range |
| FileServlet.RangeResponseAgrees | src/main/java/de/mpg/imeji/presentation/storage/FileServlet.java:194-205 | where the code as written behaves, the corrected response is the same |
| FileServlet.RetrieveUrlOfContent | src/main/java/de/mpg/imeji/presentation/storage/FileServlet.java:126-138 | a failed lookup propagates; a missing resolution is a NullPointerException; otherwise thumbnail, preview or full pick that URL and anything else picks the original |
| FileServlet.DoGet | src/main/java/de/mpg/imeji/presentation/storage/FileServlet.java:68-120 | a failed login or an unresolvable URL goes to the catch block; a file or part is sent only to a user allowed to view it; a partial or 416 answer happens only for a range request outside Firefox, a partial has a consistent length; an allowed stored file without a range (or in Firefox) is sent whole, a forbidden one gets nothing; the 416 is the corrected range response (see Left out) |
| HierarchyService.Parent | src/main/java/de/mpg/imeji/logic/hierarchy/HierarchyService.java:191-194 | a URI without a node has no parent; a parent found is the one its node records |
| HierarchyService.Parents | src/main/java/de/mpg/imeji/logic/hierarchy/HierarchyService.java:175-183 | the last ancestor listed is the URI's parent; with a step to take, the list is empty iff there is no parent |
| HierarchyService.ParentsChain | src/main/java/de/mpg/imeji/logic/hierarchy/HierarchyService.java:175-183 | each listed ancestor is the parent of the one after it |
| HierarchyService.ParentsComplete | src/main/java/de/mpg/imeji/logic/hierarchy/HierarchyService.java:175-183 | in an acyclic hierarchy the first ancestor has no parent, every listed node ranks below the URI, and the URI is never its own ancestor |
| HierarchyService.ParentsOf | src/main/java/de/mpg/imeji/logic/hierarchy/HierarchyService.java:158-167 | an object without a parent URI has no ancestors; otherwise the list ends with that parent URI |
| HierarchyService.LastParent | src/main/java/de/mpg/imeji/logic/hierarchy/HierarchyService.java:217-223 | a URI without a node is its own last parent; null stays null |
| HierarchyService.LastParentComplete | src/main/java/de/mpg/imeji/logic/hierarchy/HierarchyService.java:217-223 | in an acyclic hierarchy the last parent has no node and is the first ancestor, or null when the walk reaches a node without a parent |
| HierarchyService.LastParentFuelIndependent | src/main/java/de/mpg/imeji/logic/hierarchy/HierarchyService.java:217-223 | any step bound that covers the walk gives the same last parent |
| HierarchyService.GetLastParentIsRoot | src/main/java/de/mpg/imeji/logic/hierarchy/HierarchyService.java:217-223 | the node-count bound covers every walk of an acyclic hierarchy, so the bounded walk is the unbounded one |
| HierarchyService.LastParentOf | src/main/java/de/mpg/imeji/logic/hierarchy/HierarchyService.java:203-209 | an object without a parent URI has no last parent |
| HierarchyService.ParentUri | src/main/java/de/mpg/imeji/logic/hierarchy/HierarchyService.java:266-275 | an item's parent is its collection, a collection's its parent, and other objects have none |
| HierarchyService.Subcollections | src/main/java/de/mpg/imeji/logic/hierarchy/HierarchyService.java:146-150 | a URI without children in the tree has no subcollections |
| HierarchyService.SubcollectionsOf | src/main/java/de/mpg/imeji/logic/hierarchy/HierarchyService.java:147-149 | the pre-order listing starts with the first child |
| HierarchyService.SubcollectionsSpec | src/main/java/de/mpg/imeji/logic/hierarchy/HierarchyService.java:146-150 | every listed subcollection is a child of the URI or of another listed one, and every direct child is listed; `FindAllSubcollectionsSpec` gives the listing at every depth |
| HierarchyService.SubcollectionsOfSpec | src/main/java/de/mpg/imeji/logic/hierarchy/HierarchyService.java:147-149 | the listing of some children of the URI lists each of them, and only descendants; `SubcollectionsReach` gives every deeper one |
| HierarchyService.SubcollectionsOfCovers | src/main/java/de/mpg/imeji/logic/hierarchy/HierarchyService.java:147-149 | the listing of a child list holds each child and everything listed below it |
| HierarchyService.SubcollectionsReach | src/main/java/de/mpg/imeji/logic/hierarchy/HierarchyService.java:146-150 | on an acyclic tree, with a step bound above the URI's rank, the end of every path down from the URI is listed |
| HierarchyService.SubcollectionsBelow | src/main/java/de/mpg/imeji/logic/hierarchy/HierarchyService.java:146-150 | everything listed lies below the URI at some depth |
| HierarchyService.SubcollectionsOfBelow | src/main/java/de/mpg/imeji/logic/hierarchy/HierarchyService.java:147-149 | everything listed from some children of the URI lies below the URI |
| HierarchyService.FindAllSubcollectionsSpec | src/main/java/de/mpg/imeji/logic/hierarchy/HierarchyService.java:146-150 | on an acyclic tree, findAllSubcollections lists exactly the collections below the URI, at every depth |
| ImejiConfiguration.BrowseViewOf | src/main/java/de/mpg/imeji/logic/config/ImejiConfiguration.java:74-76 | `valueOf` succeeds iff the text is LIST or THUMBNAIL, and gives the view of that name |
| ImejiConfiguration.BrowseViewRoundTrip | src/main/java/de/mpg/imeji/logic/config/ImejiConfiguration.java:74-76 | every view is found again by its name |
| ImejiConfiguration.KeyIndex | src/main/java/de/mpg/imeji/logic/config/ImejiConfiguration.java:146-161 | the position of a name among the thirteen defaulted names, 13 for the others |
| ImejiConfiguration.WithDefault | src/main/java/de/mpg/imeji/logic/config/ImejiConfiguration.java:169-177 | after one call the name holds its current value when non-empty, else the default |
| ImejiConfiguration.InitDefault | src/main/java/de/mpg/imeji/logic/config/ImejiConfiguration.java:146-161 | exactly the thirteen names called there get a default |
| ImejiConfiguration.FillStep | src/main/java/de/mpg/imeji/logic/config/ImejiConfiguration.java:146-161 | each further call keeps the earlier names' values and defaults the next name |
| ImejiConfiguration.DefaultedKeysIndex | src/main/java/de/mpg/imeji/logic/config/ImejiConfiguration.java:146-161 | the list of defaulted names matches their call positions |
| ImejiConfiguration.FilledAll | src/main/java/de/mpg/imeji/logic/config/ImejiConfiguration.java:146-161 | after the thirteen calls every defaulted name holds its value and every other name is untouched |
| ImejiConfiguration.DefaultsFilledIdempotent | src/main/java/de/mpg/imeji/logic/config/ImejiConfiguration.java:146-177 | after filling (with non-empty defaults) no defaulted name is empty, and a second fill changes nothing |
| ImejiConfiguration.QuotaLimitsAsList | src/main/java/de/mpg/imeji/logic/config/ImejiConfiguration.java:823-826 | the list always ends with "unlimited" |
| ImejiConfiguration.QuotaLimitsSingle | src/main/java/de/mpg/imeji/logic/config/ImejiConfiguration.java:823-826 | a single stored limit comes before "unlimited" |
| ImejiConfiguration.LanguagesAsList | src/main/java/de/mpg/imeji/logic/config/ImejiConfiguration.java:634-645 | an empty list gives no languages; one without a comma gives itself |
| ImejiConfiguration.LanguagesRoundTrip | src/main/java/de/mpg/imeji/logic/config/ImejiConfiguration.java:634-645 | without a trailing comma the entries join back to the stored text, and none holds a comma |
| ImejiConfiguration.FieldsNoSeparator | src/main/java/de/mpg/imeji/logic/config/ImejiConfiguration.java:634-645 | no field of a split holds the separator |
| ImejiConfiguration.Get | src/main/java/de/mpg/imeji/logic/config/ImejiConfiguration.java:203-216 | a name reads as null iff it is not set, and otherwise as its stored value |
| ImejiConfiguration.TokenExpiry | src/main/java/de/mpg/imeji/logic/config/ImejiConfiguration.java:774-777 | a null or blank expiry reads as one day; otherwise as stored |
| ImejiConfiguration.ExpiryToStore | src/main/java/de/mpg/imeji/logic/config/ImejiConfiguration.java:723-733 | an argument `Integer.valueOf` accepts (digits of any script included) is stored; anything else, null included, is replaced by one day |
| ImejiConfiguration.IntegerNotBlank | src/main/java/de/mpg/imeji/logic/config/ImejiConfiguration.java:723-733 | an integer's text is never blank |
| ImejiConfiguration.TokenExpirySetGet | src/main/java/de/mpg/imeji/logic/config/ImejiConfiguration.java:723-777 | storing and reading back: a text `Integer.valueOf` accepts unchanged, anything else as one day |
| ImejiConfiguration.DataViewerSupports | src/main/java/de/mpg/imeji/logic/config/ImejiConfiguration.java:398-404 | no format list or an empty format is unsupported; otherwise supported iff the list contains it as a substring |
| ImejiConfiguration.ListedFormatSupported | src/main/java/de/mpg/imeji/logic/config/ImejiConfiguration.java:398-404 | a listed format is supported whatever else the list holds |
| ImejiConfiguration.UploadMaxFileSize | src/main/java/de/mpg/imeji/logic/config/ImejiConfiguration.java:291-297 | "0" when unset or empty, else the stored text |
| ImejiConfiguration.NonNullProperty | src/main/java/de/mpg/imeji/logic/config/ImejiConfiguration.java:213-216 | "" for an unset name, else its value |
| ImejiConfiguration.ImejiConfiguration.constructor | src/main/java/de/mpg/imeji/logic/config/ImejiConfiguration.java:125-144 | after reading, the defaults are filled in and both protected passwords hold the stored ones, unchecked |
| ImejiConfiguration.ImejiConfiguration.InitPropertyWithDefaultValue | src/main/java/de/mpg/imeji/logic/config/ImejiConfiguration.java:169-177 | the configuration becomes the one with that name defaulted, and nothing else changes |
| ImejiConfiguration.ImejiConfiguration.InitPropertiesWithDefaultValue | src/main/java/de/mpg/imeji/logic/config/ImejiConfiguration.java:146-161 | all thirteen names are defaulted and the rest is untouched |
| ImejiConfiguration.ImejiConfiguration.SetProperty | src/main/java/de/mpg/imeji/logic/config/ImejiConfiguration.java:203-205 | only that name changes; a null value throws a NullPointerException and changes nothing |
| ImejiConfiguration.ImejiConfiguration.SetUploadMaxFileSize | src/main/java/de/mpg/imeji/logic/config/ImejiConfiguration.java:277-284 | the argument is stored even when it is not a number, and reads back, "" as "0"; a null argument leaves "" stored and then throws a NullPointerException; the file types and both protected password fields stay, so `Valid()` is kept |
| ImejiConfiguration.ImejiConfiguration.SetRegistrationTokenExpiry | src/main/java/de/mpg/imeji/logic/config/ImejiConfiguration.java:723-733 | stores the argument when `Integer.valueOf` accepts it (digits of any script included), else one day; the file types and both protected password fields stay, so `Valid()` is kept |
| ImejiConfiguration.ImejiConfiguration.SetDefaultBrowseView | src/main/java/de/mpg/imeji/logic/config/ImejiConfiguration.java:799-801 | a view name is stored; null throws a NullPointerException and any other name an IllegalArgumentException, changing nothing; the file types and both protected password fields stay, so `Valid()` is kept |
| ImejiConfiguration.ImejiConfiguration.SetFileTypes | src/main/java/de/mpg/imeji/logic/config/ImejiConfiguration.java:313-315 | stores the current file types, ignoring the argument; the file types and both protected password fields stay, so `Valid()` is kept |
| ImejiConfiguration.ImejiConfiguration.SetProtectedEmailServerPassword | src/main/java/de/mpg/imeji/logic/config/ImejiConfiguration.java:570-572 | stores what the protected field shows, which is always ""; the file types and both protected password fields stay, so `Valid()` is kept |
| ImejiConfiguration.ImejiConfiguration.SetProtectedDoiPassword | src/main/java/de/mpg/imeji/logic/config/ImejiConfiguration.java:687-689 | stores what the protected field shows, which is always ""; the file types and both protected password fields stay, so `Valid()` is kept |
| ImejiConfiguration.ProtectedPassword.constructor | src/main/java/de/mpg/imeji/logic/config/ImejiConfiguration.java:1027-1030 | a new protected password is unchecked |
| ImejiConfiguration.ProtectedPassword.Password | src/main/java/de/mpg/imeji/logic/config/ImejiConfiguration.java:1035-1037 | the form always shows "" |
| ImejiConfiguration.ProtectedPassword.PasswordActive | src/main/java/de/mpg/imeji/logic/config/ImejiConfiguration.java:1050-1052 | the check box always reads unchecked |
| ImejiConfiguration.ProtectedPassword.SetPassword | src/main/java/de/mpg/imeji/logic/config/ImejiConfiguration.java:1039-1044 | only while checked is the password changed and written to the configuration; otherwise nothing changes |
| ImejiConfiguration.ProtectedPassword.SetPasswordActive | src/main/java/de/mpg/imeji/logic/config/ImejiConfiguration.java:1046-1057 | sets the check box, the password unchanged |
| ImejiConfiguration.PasswordScenario | src/main/java/de/mpg/imeji/logic/config/ImejiConfiguration.java:1039-1057 | a password typed after checking the box reaches the configuration |
| InternalStorageManager.GetFileName | src/main/java/de/mpg/imeji/logic/storage/internal/InternalStorageManager.java:197-202 | the file name holds no separator |
| InternalStorageManager.GetFileNameSegment | src/main/java/de/mpg/imeji/logic/storage/internal/InternalStorageManager.java:197-202 | the last segment is found whether or not the path ends with a separator |
| InternalStorageManager.GenerateIdVersion | src/main/java/de/mpg/imeji/logic/storage/internal/InternalStorageManager.java:272-280 | the version is the id's last segment |
| InternalStorageManager.GenerateIdDistinct | src/main/java/de/mpg/imeji/logic/storage/internal/InternalStorageManager.java:272-280 | different versions give different ids |
| InternalStorageManager.TriedFresh | src/main/java/de/mpg/imeji/logic/storage/internal/InternalStorageManager.java:256-264 | no earlier attempt produced the id of a later one |
| InternalStorageManager.GenerateIdWithVersion | src/main/java/de/mpg/imeji/logic/storage/internal/InternalStorageManager.java:256-264 | the id returned is the one of the final version, is not in use, and every earlier version's id was in use |
| InternalStorageManager.IsTransformableImage | src/main/java/de/mpg/imeji/logic/storage/internal/InternalStorageManager.java:303-314 | a transformable file has an image MIME type; gif and svg never are |
| InternalStorageManager.GenerateUrl | src/main/java/de/mpg/imeji/logic/storage/internal/InternalStorageManager.java:292-301 | the URL is the storage URL, the id and the resolution's name, then the file name |
| InternalStorageManager.ResolutionFileNameSpec | src/main/java/de/mpg/imeji/logic/storage/internal/InternalStorageManager.java:292-301 | the original (and a full one that cannot be transformed) keeps its name; the others get the same base name with extension "jpg" |
| InternalStorageManager.GenerateUrlName | src/main/java/de/mpg/imeji/logic/storage/internal/InternalStorageManager.java:197-202 | the file name read from a generated URL is the resolution's file name |
| InternalStorageManager.GetResolution | src/main/java/de/mpg/imeji/logic/storage/internal/InternalStorageManager.java:500-507 | any resolution other than ORIGINAL is found by its name in the path |
| InternalStorageManager.GetResolutionOfUrl | src/main/java/de/mpg/imeji/logic/storage/internal/InternalStorageManager.java:500-507 | a generated URL is read back as its own resolution unless an earlier-tried name also occurs in it |
| InternalStorageManager.StoredFileName | src/main/java/de/mpg/imeji/logic/storage/internal/InternalStorageManager.java:240-241 | a name with an extension other than "tmp" is kept |
| InternalStorageManager.StoredFileNameExtension | src/main/java/de/mpg/imeji/logic/storage/internal/InternalStorageManager.java:240-241 | a name without an extension, or with "tmp", gets the guessed extension |
| InternalStorageManager.GenerateInternalStorageItem | src/main/java/de/mpg/imeji/logic/storage/internal/InternalStorageManager.java:234-248 | the item keeps the id and the file name, each resolution's URL starts with its own prefix, and the original URL ends with the stored file name |
| ItemDetailsBrowse.Offset | src/main/java/de/mpg/imeji/presentation/item/details/ItemDetailsBrowse.java:142-144 | the search starts one result before the current position, and never below 0 |
| ItemDetailsBrowse.PositionParameter | src/main/java/de/mpg/imeji/presentation/item/details/ItemDetailsBrowse.java:74 | an absent "pos" reads as -1; otherwise the value as `Integer.parseInt` reads it (digits of any script included), a Java int; an empty value is a NumberFormatException |
| ItemDetailsBrowse.SearchPreviousAndNextItem | src/main/java/de/mpg/imeji/presentation/item/details/ItemDetailsBrowse.java:90-101 | without a position nothing is searched; otherwise the search's window at the offset, or nothing when it fails |
| ItemDetailsBrowse.IndexOfItem | src/main/java/de/mpg/imeji/presentation/item/details/ItemDetailsBrowse.java:184-198 | `indexOf` gives the first index holding the item, and -1 iff it is absent |
| ItemDetailsBrowse.IndexOfItemIs | src/main/java/de/mpg/imeji/presentation/item/details/ItemDetailsBrowse.java:184-198 | the first occurrence is the one at i when nothing before i holds the item |
| ItemDetailsBrowse.NextItem | src/main/java/de/mpg/imeji/presentation/item/details/ItemDetailsBrowse.java:184-187 | there is a next item iff the results are not empty and the current one is absent or not last; it is the result after the current one, or the first result when the current one is absent |
| ItemDetailsBrowse.PreviousItem | src/main/java/de/mpg/imeji/presentation/item/details/ItemDetailsBrowse.java:195-198 | there is a previous item iff the current one is found after the first result, and it is the first result |
| ItemDetailsBrowse.Window | src/main/java/de/mpg/imeji/presentation/item/details/ItemDetailsBrowse.java:90-101 | a search window holds at most SIZE = 3 results |
| ItemDetailsBrowse.BrowseWindow | src/main/java/de/mpg/imeji/presentation/item/details/ItemDetailsBrowse.java:90-198 | for distinct results with the current one at its position, the next and previous items of the window are exactly its neighbours in the whole result list |
| ItemDetailsBrowse.ContainerBase | src/main/java/de/mpg/imeji/presentation/item/details/ItemDetailsBrowse.java:158-163 | a null container URI is a NullPointerException; otherwise the container's page, its id and "/item/" |
| ItemDetailsBrowse.BaseUrl | src/main/java/de/mpg/imeji/presentation/item/details/ItemDetailsBrowse.java:156-165 | collection and album pages link through the container, the item browser through the item page, and any other page with "" |
| ItemDetailsBrowse.Link | src/main/java/de/mpg/imeji/presentation/item/details/ItemDetailsBrowse.java:169-175 | a link starts with the base, the item's id and "?q=", and ends with the new position |
| ItemDetailsBrowse.LinkPosition | src/main/java/de/mpg/imeji/presentation/item/details/ItemDetailsBrowse.java:169-175 | the text after the link's last '=' is the position, and reads back as the same Java int |
| ItemDetailsBrowse.ParseNegative | src/main/java/de/mpg/imeji/presentation/item/details/ItemDetailsBrowse.java:74 | a negative Java int reads back from its text |
| ItemDetailsBrowse.LinkTo | src/main/java/de/mpg/imeji/presentation/item/details/ItemDetailsBrowse.java:168-175 | no item gives no link; failures of the base and of `getId` propagate; otherwise the link to the item |
| ItemDetailsBrowse.NoPositionNoLinks | src/main/java/de/mpg/imeji/presentation/item/details/ItemDetailsBrowse.java:90-101 | without a position there is neither a next nor a previous link |
| ItemDetailsBrowse.ItemDetailsBrowse.constructor | src/main/java/de/mpg/imeji/presentation/item/details/ItemDetailsBrowse.java:63-81 | the queries are URL-encoded parameters, and the links are those of the window searched at the position; a missing position gives no links |
| ItemDetailsBrowse.ItemDetailsBrowse.Init | src/main/java/de/mpg/imeji/presentation/item/details/ItemDetailsBrowse.java:155-176 | the next link and then the previous link are set from the neighbours, one position further each; an exception stops there and leaves the later link as it was |
| ItemService.FirstNonBlank | src/main/java/de/mpg/imeji/logic/core/item/ItemService.java:713-723 | a value found is one of the arguments and is not blank |
| ItemService.FirstNonBlankNone | src/main/java/de/mpg/imeji/logic/core/item/ItemService.java:713-723 | nothing is found iff every argument is null or blank |
| ItemService.FirstNonBlankFirst | src/main/java/de/mpg/imeji/logic/core/item/ItemService.java:713-723 | the value found is the first argument that is not blank |
| ItemService.FirstNonNullOrEmpty | src/main/java/de/mpg/imeji/logic/core/item/ItemService.java:713-723 | the loop returns null for a null array, and otherwise the first argument that is not blank |
| ItemService.ExternalFileUrlPrefersFetch | src/main/java/de/mpg/imeji/logic/core/item/ItemService.java:709-711 | a fetch URL that is not blank is chosen; otherwise the reference URL when it is not blank; otherwise none |
| ItemService.DownloadFileChoosesFetch | src/main/java/de/mpg/imeji/logic/core/item/ItemService.java:709-733 | corrected: the file is downloaded iff the chosen URL is the fetch URL, and a reference URL is never downloaded |
| ItemService.DownloadFileAgrees | src/main/java/de/mpg/imeji/logic/core/item/ItemService.java:731-733 | the rule as written and the corrected rule differ exactly on a fetch URL of blanks |
| ItemService.BlankFetchDownloadsReference | src/main/java/de/mpg/imeji/logic/core/item/ItemService.java:709-733 | as written, a fetch URL " " beside a reference URL picks the reference URL and still downloads it |
| ItemService.CreateSource | src/main/java/de/mpg/imeji/logic/core/item/ItemService.java:249-272 | not logged in, an uploaded file without a name, or neither file nor URL fail with their errors; it succeeds iff logged in, an uploaded file has a name, and otherwise a URL is chosen; it then says what to create from, the download decided by the corrected rule (see Left out) |
| ItemService.CreateBlankUrls | src/main/java/de/mpg/imeji/logic/core/item/ItemService.java:255-269 | URLs that are given but blank pass the first check and fail the last |
| ItemService.ExternalFileName | src/main/java/de/mpg/imeji/logic/core/item/ItemService.java:182-197 | a name that comes out is not empty, and comes with a non-empty URL |
| ItemService.ExternalFileNameSpec | src/main/java/de/mpg/imeji/logic/core/item/ItemService.java:182-197 | without a name the URL's file name is taken; a given name starts the result, and the result has the URL's extension; a name that already has it is kept |
| ItemService.ItemRecord.constructor | src/main/java/de/mpg/imeji/logic/core/item/ItemService.java:226-235 | a new item record holds its status, collection and licence, with no discard comment |
| ItemService.CreateBatch | src/main/java/de/mpg/imeji/logic/core/item/ItemService.java:226-235 | without a collection or its id the error and no change; otherwise every item takes the collection's status and id, and nothing else changes |
| ItemService.FilterItemsByStatus | src/main/java/de/mpg/imeji/logic/core/item/ItemService.java:678-685 | exactly the items with that status are kept |
| ItemService.FilterItemsByStatusAppend | src/main/java/de/mpg/imeji/logic/core/item/ItemService.java:678-685 | filtering keeps the items' order |
| ItemService.ReleasedLicense | src/main/java/de/mpg/imeji/logic/core/item/ItemService.java:542-551 | an item's own licence is kept; without one the default licence is used |
| ItemService.Release | src/main/java/de/mpg/imeji/logic/core/item/ItemService.java:542-551 | pending items become released with their licence or the default one; all other items and fields are untouched |
| ItemService.WithdrawnComment | src/main/java/de/mpg/imeji/logic/core/item/ItemService.java:572-581 | a comment that is neither null nor empty replaces the discard comment; otherwise it is kept |
| ItemService.Withdraw | src/main/java/de/mpg/imeji/logic/core/item/ItemService.java:572-581 | released items become withdrawn with that comment; all other items and fields are untouched |
| ItemService.ToLong | src/main/java/de/mpg/imeji/logic/core/item/ItemService.java:853 | a Java long is the value wrapped into the signed 64-bit range, and a value already in range is unchanged |
| ItemService.QuotaRemaining | src/main/java/de/mpg/imeji/logic/core/item/ItemService.java:853-859 | the quota error iff the wrapped total exceeds the quota; without wrap-around the rest is the quota minus the total, and not negative |
| ItemService.QuotaSequential | src/main/java/de/mpg/imeji/logic/core/item/ItemService.java:853-859 | once a first file fits, a second fits iff it is no larger than what the first left |
| ItemService.CheckQuota | src/main/java/de/mpg/imeji/logic/core/item/ItemService.java:836-860 | no search result is an index error, an unreadable usage the unprocessable error, and otherwise the quota check on that usage |
| LinkedCollection.TypeName | src/main/java/de/mpg/imeji/logic/model/LinkedCollection.java:123-132 | the flag stands for one of the two type names |
| LinkedCollection.TypeNameRoundTrip | src/main/java/de/mpg/imeji/logic/model/LinkedCollection.java:95-132 | the flag survives the trip through the type name, and each of the two names the trip through the flag |
| LinkedCollection.LinkedCollection.constructor | src/main/java/de/mpg/imeji/logic/model/LinkedCollection.java:47-68 | a new link is internal, with the flag set and nothing else |
| LinkedCollection.LinkedCollection.HasId | src/main/java/de/mpg/imeji/logic/model/LinkedCollection.java:90-92 | true iff an id is set |
| LinkedCollection.LinkedCollection.SetLinkedCollectionType | src/main/java/de/mpg/imeji/logic/model/LinkedCollection.java:95-102 | the name is stored, the flag follows it (true only for INTERNAL), and the other fields stay |
| LinkedCollection.LinkedCollection.IsInternalCollectionType | src/main/java/de/mpg/imeji/logic/model/LinkedCollection.java:114-116 | reads the stored name, which agrees with the flag whenever the two are in step |
| LinkedCollection.LinkedCollection.SetInternalCollectionType | src/main/java/de/mpg/imeji/logic/model/LinkedCollection.java:123-132 | the flag is stored, the name follows it, and the other fields stay |
| LinkedCollection.LinkedCollection.DataConsistent | src/main/java/de/mpg/imeji/logic/model/LinkedCollection.java:149-158 | inconsistent iff an internal link has a URI but no name |
| LinkedCollection.LinkedCollection.PrepareJsfFields | src/main/java/de/mpg/imeji/logic/model/LinkedCollection.java:161-170 | the flag is set again from the stored name, and nothing else changes |
| LinkedCollection.LinkedCollection.ResetInternalFields | src/main/java/de/mpg/imeji/logic/model/LinkedCollection.java:195-198 | the internal URI and name are cleared, nothing else |
| LinkedCollection.LinkedCollection.ResetExternalFields | src/main/java/de/mpg/imeji/logic/model/LinkedCollection.java:218-221 | the external URI and name are cleared, nothing else |
| LinkedCollection.LinkedCollection.IsEmpty | src/main/java/de/mpg/imeji/logic/model/LinkedCollection.java:224-243 | an internal link is empty iff its URI is null or ""; an external one iff its URI or its name is |
| DefaultJs.JsIndexOf | src/main/webapp/resources/js/default.js:14-16 | a found index is an occurrence of the searched text |
| DefaultJs.JsEndsWithSpec | src/main/webapp/resources/js/default.js:14-16 | `endsWith` holds iff the text ends with the suffix, a suffix longer than the text included |
| DefaultJs.FormatNumber | src/main/webapp/resources/js/default.js:23-26 | formatting never lengthens the text |
| DefaultJs.FormatNumberPlain | src/main/webapp/resources/js/default.js:23-26 | a number without commas and spaces is left as it is |
| DefaultJs.FormatNumberFirstComma | src/main/webapp/resources/js/default.js:23-26 | the first comma becomes the decimal point |
| DefaultJs.FormatNumberFirstSpace | src/main/webapp/resources/js/default.js:23-26 | the first space goes |
| DefaultJs.ValidateInputNumber | src/main/webapp/resources/js/default.js:79-84 | the field gets "" or the formatted value: "" when the twice-formatted value is no number, and a kept value is a number once formatted |
| DefaultJs.ValidateInputNumberKept | src/main/webapp/resources/js/default.js:79-84 | validating a kept value again keeps it |
| DefaultJs.Button.constructor | src/main/webapp/resources/js/default.js:130-143 | a button has a kind and a disabled state |
| DefaultJs.HandleDisableButton | src/main/webapp/resources/js/default.js:130-143 | a submit button is disabled when its request begins and enabled when it completes; any other element or status leaves it alone |
| DefaultJs.EncodeUriComponent | src/main/webapp/resources/js/default.js:256 | the encoded text is no shorter and holds only unreserved characters and '%' |
| DefaultJs.EncodedDelimiters | src/main/webapp/resources/js/default.js:256 | the encoded query holds no '=', '&', '?' or '#' |
| DefaultJs.GoToSearch | src/main/webapp/resources/js/default.js:250-258 | a URL exists iff the index names a context |
| DefaultJs.GoToSearchUrl | src/main/webapp/resources/js/default.js:250-258 | the search URL extends the context's URL by '&' iff it already has a '?' (else by '?'), and ends with the encoded text as its last value |
| DefaultJs.SelectedSearchFor | src/main/webapp/resources/js/default.js:280-291 | the selected context is the first whose URL contains the page's path when one does, and the first otherwise; no earlier context contains the path |
| DefaultJs.SimpleSearch.constructor | src/main/webapp/resources/js/default.js:280-291 | the menu of a loaded page selects the first context holding the path when there is one, and the first context otherwise |
| DefaultJs.SimpleSearch.IncrementSelectedSearch | src/main/webapp/resources/js/default.js:328-332 | the next context unless the last is selected; the selection stays in range |
| DefaultJs.SimpleSearch.DecrementSelectedSearch | src/main/webapp/resources/js/default.js:336-340 | the previous context unless the first is selected; the selection stays in range |
| DefaultJs.SimpleSearch.SubmitSimpleSearch | src/main/webapp/resources/js/default.js:236-241 | an empty query opens nothing; otherwise the search page of the selected context, which exists when there is a context |
| MdProfileBean.IncrementedSpec | src/main/java/de/mpg/imeji/presentation/mdProfile/MdProfileBean.java:293-299 | exactly the wrappers at the given position or later move k places; nothing else changes |
| MdProfileBean.PositionedSpec | src/main/java/de/mpg/imeji/presentation/mdProfile/MdProfileBean.java:313-319 | every wrapper's position becomes its index; nothing else changes |
| MdProfileBean.PlacedChildren | src/main/java/de/mpg/imeji/presentation/mdProfile/MdProfileBean.java:260-265 | giving the children their new positions keeps the list's length and everything but the positions |
| MdProfileBean.Placed | src/main/java/de/mpg/imeji/presentation/mdProfile/MdProfileBean.java:258-265 | placing the dragged wrapper and its children changes only positions |
| MdProfileBean.InsertByPosSorted | src/main/java/de/mpg/imeji/presentation/mdProfile/MdProfileBean.java:267 | inserting into a sorted list keeps it sorted and adds exactly the new wrapper |
| MdProfileBean.SortByPosSpec | src/main/java/de/mpg/imeji/presentation/mdProfile/MdProfileBean.java:267 | the sort orders by position and is a permutation |
| MdProfileBean.SortByPosStripped | src/main/java/de/mpg/imeji/presentation/mdProfile/MdProfileBean.java:267 | positions aside, the sort keeps every wrapper with its multiplicity |
| MdProfileBean.InsertByPosStripped | src/main/java/de/mpg/imeji/presentation/mdProfile/MdProfileBean.java:267 | positions aside, an insertion adds exactly the inserted wrapper |
| MdProfileBean.MovedSpec | src/main/java/de/mpg/imeji/presentation/mdProfile/MdProfileBean.java:248-271 | after a move the list holds the same wrappers, positions aside, and every position is again the wrapper's index |
| MdProfileBean.Children | src/main/java/de/mpg/imeji/presentation/mdProfile/MdProfileBean.java:377-389 | only wrappers of the list are listed as children |
| MdProfileBean.ChildrenSpec | src/main/java/de/mpg/imeji/presentation/mdProfile/MdProfileBean.java:377-389 | every listed wrapper is a child of the statement or of another listed one (a direct child when only first-level ones are asked for), and every direct child is listed; AllChildrenSpec gives the listing at every depth |
| MdProfileBean.DirectChildren | src/main/java/de/mpg/imeji/presentation/mdProfile/MdProfileBean.java:377-389 | the first-level children are exactly the wrappers whose parent is the statement, in list order |
| MdProfileBean.ChildPathShort | src/main/java/de/mpg/imeji/presentation/mdProfile/MdProfileBean.java:377-389 | on an acyclic list a path down from a statement is no longer than the list |
| MdProfileBean.ChildrenReach | src/main/java/de/mpg/imeji/presentation/mdProfile/MdProfileBean.java:377-389 | the end of every path down from the statement, no deeper than the step bound, is listed |
| MdProfileBean.ChildrenDescend | src/main/java/de/mpg/imeji/presentation/mdProfile/MdProfileBean.java:377-389 | every listed wrapper descends from the statement |
| MdProfileBean.AllChildrenSpec | src/main/java/de/mpg/imeji/presentation/mdProfile/MdProfileBean.java:377-389 | on an acyclic list getChilds(parent, false) lists exactly the descendants, at every depth |
| MdProfileBean.IsAParentLoopsAtHead | src/main/java/de/mpg/imeji/presentation/mdProfile/MdProfileBean.java:347-357 | as written, a child statement at position 0 whose parent is not the one looked for keeps `isAParent` looping |
| MdProfileBean.IsAParentAtSpec | src/main/java/de/mpg/imeji/presentation/mdProfile/MdProfileBean.java:347-357 | corrected: the walk finds the statement iff some wrapper at or before k has it as parent and every wrapper from there to k has a parent |
| MdProfileBean.IsAParentAgrees | src/main/java/de/mpg/imeji/presentation/mdProfile/MdProfileBean.java:347-357 | when positions are indices the walk as written agrees with the corrected one, or loops where the corrected one finds nothing |
| MdProfileBean.LevelOf | src/main/java/de/mpg/imeji/presentation/mdProfile/MdProfileBean.java:418-427 | a statement without a cached parent is at level 0; otherwise at its parent's level plus the 30-pixel margin |
| MdProfileBean.CachedLevel | src/main/java/de/mpg/imeji/presentation/mdProfile/MdProfileBean.java:418-427 | a cached level is returned as cached; levels stay non-negative multiples of the margin |
| MdProfileBean.LevelsAfter | src/main/java/de/mpg/imeji/presentation/mdProfile/MdProfileBean.java:166-172 | the level cache initStatementWrappers builds: well-formed and holding every statement seen |
| MdProfileBean.LevelsAfterStable | src/main/java/de/mpg/imeji/presentation/mdProfile/MdProfileBean.java:418-427 | a cached level never changes |
| MdProfileBean.InitialLevelSpec | src/main/java/de/mpg/imeji/presentation/mdProfile/MdProfileBean.java:418-427 | with distinct ids, a statement whose parent comes earlier sits one margin below it, and one without an earlier parent at level 0 |
| MdProfileBean.HasChild | src/main/java/de/mpg/imeji/presentation/mdProfile/MdProfileBean.java:279-285 | true iff the wrapper before the position is its parent; the list access throws for a negative position, or at 0 for a wrapper with a parent |
| MdProfileBean.KeptIndices | src/main/java/de/mpg/imeji/presentation/mdProfile/MdProfileBean.java:508-518 | only indices below n are kept |
| MdProfileBean.SelectStep | src/main/java/de/mpg/imeji/presentation/mdProfile/MdProfileBean.java:508-518 | selecting one more index appends that wrapper unless it is deleted |
| MdProfileBean.KeptIndicesSpec | src/main/java/de/mpg/imeji/presentation/mdProfile/MdProfileBean.java:508-518 | exactly the indices not deleted are kept, in order |
| MdProfileBean.RemovalSpec | src/main/java/de/mpg/imeji/presentation/mdProfile/MdProfileBean.java:508-518 | removal drops the statement and its direct children, keeps every wrapper that is not deleted, and keeps their order; RemovalKeepsNonDescendants gives the removal at every depth |
| MdProfileBean.RemovalKeepsNonDescendants | src/main/java/de/mpg/imeji/presentation/mdProfile/MdProfileBean.java:508-518 | on an acyclic list the removal keeps exactly the wrappers that are neither the statement nor one of its descendants |
| MdProfileBean.MdProfileBean.constructor | src/main/java/de/mpg/imeji/presentation/mdProfile/MdProfileBean.java:70-135 | the editor holds one wrapper per statement, with its use flag and the level initStatementWrappers computes, and that level cache; a profile without statements gets one new root statement at level 0 |
| MdProfileBean.MdProfileBean.InitStatementWrappers | src/main/java/de/mpg/imeji/presentation/mdProfile/MdProfileBean.java:166-172 | one wrapper per statement, each with the level getLevel gives it on a cache built afresh in list order, and that cache |
| MdProfileBean.MdProfileBean.AddFirstStatement | src/main/java/de/mpg/imeji/presentation/mdProfile/MdProfileBean.java:131-135 | a new root statement is appended with the level getLevel gives it, which is cached |
| MdProfileBean.MdProfileBean.GetLevel | src/main/java/de/mpg/imeji/presentation/mdProfile/MdProfileBean.java:418-427 | the level is the cached or computed one, and it is cached |
| MdProfileBean.MdProfileBean.IncrementPosition | src/main/java/de/mpg/imeji/presentation/mdProfile/MdProfileBean.java:293-299 | the wrappers become the incremented list, and nothing else changes |
| MdProfileBean.MdProfileBean.ResetPosition | src/main/java/de/mpg/imeji/presentation/mdProfile/MdProfileBean.java:313-319 | the wrappers become the positioned list, and nothing else changes |
| MdProfileBean.MdProfileBean.GetChilds | src/main/java/de/mpg/imeji/presentation/mdProfile/MdProfileBean.java:377-389 | returns the children of the specification, which on an acyclic list are exactly the descendants (AllChildrenSpec) |
| MdProfileBean.MdProfileBean.InsertWrapper | src/main/java/de/mpg/imeji/presentation/mdProfile/MdProfileBean.java:248-271 | no move iff the wrapper before the target descends from the dragged one, by the corrected ancestry walk (see Left out); a move increments, places, sorts and repositions the list |
| MdProfileBean.MdProfileBean.FindNextStatementWithSameLevel | src/main/java/de/mpg/imeji/presentation/mdProfile/MdProfileBean.java:436-452 | the first index after the position whose wrapper is not deeper than the statement, or the end of the list |
| MdProfileBean.MdProfileBean.AddStatement | src/main/java/de/mpg/imeji/presentation/mdProfile/MdProfileBean.java:458-468 | an empty list gets a first root statement; otherwise a sibling is inserted after the statement's descendants, with the level getLevel computes and caches after the search has cached the statement's own level |
| MdProfileBean.MdProfileBean.AddStatementChild | src/main/java/de/mpg/imeji/presentation/mdProfile/MdProfileBean.java:487-494 | a new child is inserted right after the statement, its level cached |
| MdProfileBean.KeepUndeleted | src/main/java/de/mpg/imeji/presentation/mdProfile/MdProfileBean.java:511-516 | the loop keeps the wrappers whose index is not to be deleted, in list order |
| MdProfileBean.MdProfileBean.RemoveStatementWithChilds | src/main/java/de/mpg/imeji/presentation/mdProfile/MdProfileBean.java:508-518 | the wrappers become those not removed, in order: on an acyclic list all but the statement and its descendants at every depth (RemovalKeepsNonDescendants) |
| MdProfileBean.MdProfileBean.RemoveStatement | src/main/java/de/mpg/imeji/presentation/mdProfile/MdProfileBean.java:475-481 | a used statement only raises its warning; otherwise it is removed with its descendants at every depth (RemovalKeepsNonDescendants) |
| MdProfileBean.MdProfileBean.ForceRemoveStatement | src/main/java/de/mpg/imeji/presentation/mdProfile/MdProfileBean.java:500-503 | removes even a used statement, with its descendants at every depth (RemovalKeepsNonDescendants), and marks its metadata for cleaning; the level cache stays |
| MdProfileBean.MdProfileBean.AddConstraint | src/main/java/de/mpg/imeji/presentation/mdProfile/MdProfileBean.java:545-553 | an empty constraint is inserted after the given one, or at the end; a position below -1 throws and changes nothing |
| MdProfileBean.MdProfileBean.RemoveConstraint | src/main/java/de/mpg/imeji/presentation/mdProfile/MdProfileBean.java:558-562 | the constraint at the position goes; outside the list the call throws and changes nothing |
| ObjectHelper.MatchesIdPathSplit | src/main/java/de/mpg/imeji/logic/util/ObjectHelper.java:87-89 | the path matches `(.*)/(\d+)` iff some '/' is followed by digits up to the end, with no line terminator before it |
| ObjectHelper.ReplaceLeadingSlash | src/main/java/de/mpg/imeji/logic/util/ObjectHelper.java:92-93 | dropping the '/' of "/" and a text without '/' leaves that text |
| ObjectHelper.GetIdNoPath | src/main/java/de/mpg/imeji/logic/util/ObjectHelper.java:86-94 | `getId` throws iff the URI has no path |
| ObjectHelper.GetIdMatched | src/main/java/de/mpg/imeji/logic/util/ObjectHelper.java:86-94 | a path ending in "/" and digits gives those digits |
| ObjectHelper.GetIdUnmatched | src/main/java/de/mpg/imeji/logic/util/ObjectHelper.java:86-94 | otherwise the id is the text after the last '/' of the URI string, and a URI string without '/' makes `substring` throw |
| ObjectHelper.GetIdLastSegment | src/main/java/de/mpg/imeji/logic/util/ObjectHelper.java:86-94 | a URI whose string and path both end in "/" and a segment has that segment as id, whichever branch finds it |
| ObjectHelper.FirstTypeInSpec | src/main/java/de/mpg/imeji/logic/util/ObjectHelper.java:106-110 | no type is found iff no "/" + type name occurs in the path; one found is the first in declaration order |
| ObjectHelper.GetObjectTypeBase | src/main/java/de/mpg/imeji/logic/util/ObjectHelper.java:102-116 | the base URI is SYSTEM; any other URI without a path throws |
| ObjectHelper.GetObjectTypeSpec | src/main/java/de/mpg/imeji/logic/util/ObjectHelper.java:102-116 | another URI gets the first type named in its path, else PROFILE on a case-insensitive match, else null |
| ObjectHelper.CollectionWins | src/main/java/de/mpg/imeji/logic/util/ObjectHelper.java:102-116 | "/collection" anywhere in the path makes the URI a collection's |
| ObjectHelper.Utf8 | src/main/java/de/mpg/imeji/logic/util/ObjectHelper.java:73 | one to four bytes per character |
| ObjectHelper.HexDigit | src/main/java/de/mpg/imeji/logic/util/ObjectHelper.java:73 | a hexadecimal digit is a safe character |
| ObjectHelper.PercentBytes | src/main/java/de/mpg/imeji/logic/util/ObjectHelper.java:73 | three safe characters or '%' per byte |
| ObjectHelper.EncodeChar | src/main/java/de/mpg/imeji/logic/util/ObjectHelper.java:73 | a safe character stays one character, a space becomes one, and any other becomes at least three; only safe characters, '%' and '+' come out |
| ObjectHelper.UrlEncode | src/main/java/de/mpg/imeji/logic/util/ObjectHelper.java:73 | `URLEncoder.encode` never shortens and gives only safe characters, '%' and '+' |
| ObjectHelper.UrlEncodeSafe | src/main/java/de/mpg/imeji/logic/util/ObjectHelper.java:73 | a text of safe characters, a numeric id among them, is its own encoding |
| ObjectHelper.UrlEncodeChanges | src/main/java/de/mpg/imeji/logic/util/ObjectHelper.java:73 | any other text changes under encoding |
| ObjectHelper.NormalizeUri | src/main/java/de/mpg/imeji/logic/util/ObjectHelper.java:53-55 | a failing `getId` fails the normalization |
| ObjectHelper.NormalizeKeepsId | src/main/java/de/mpg/imeji/logic/util/ObjectHelper.java:53-94 | under a base ending in '/' the rebuilt URI's id is the encoded id |
| ObjectHelper.NormalizeIdempotent | src/main/java/de/mpg/imeji/logic/util/ObjectHelper.java:53-94 | a numeric id survives normalization, so normalizing twice is normalizing once |
| RegistrationBusinessController.ByToken | src/main/java/de/mpg/imeji/logic/registration/RegistrationBusinessController.java:44-52 | found iff exactly one key starts with the token, and then that registration's own key |
| RegistrationBusinessController.ByEmail | src/main/java/de/mpg/imeji/logic/registration/RegistrationBusinessController.java:61-69 | found iff exactly one key ends with the e-mail, and then that registration's own key |
| RegistrationBusinessController.ByTokenAfterPut | src/main/java/de/mpg/imeji/logic/registration/RegistrationBusinessController.java:44-92 | a registration stored under a fresh token is found by it |
| RegistrationBusinessController.Unexpired | src/main/java/de/mpg/imeji/logic/registration/RegistrationBusinessController.java:109-115 | exactly the registrations that have not expired stay, unchanged and under their keys |
| RegistrationBusinessController.UnexpiredIdempotent | src/main/java/de/mpg/imeji/logic/registration/RegistrationBusinessController.java:109-115 | removing the expired registrations twice removes nothing more |
| RegistrationBusinessController.IsAuthorizedEmail | src/main/java/de/mpg/imeji/logic/registration/RegistrationBusinessController.java:201-212 | answers the whitelist rule: a blank whitelist lets everyone in, otherwise the e-mail must end with one of its comma-separated entries |
| RegistrationBusinessController.EndsWithSomeEntry | src/main/java/de/mpg/imeji/logic/registration/RegistrationBusinessController.java:206-211 | the loop answers true exactly when the e-mail ends with some entry |
| RegistrationBusinessController.AuthorizedBySingleEntry | src/main/java/de/mpg/imeji/logic/registration/RegistrationBusinessController.java:201-212 | with one entry, an e-mail is authorized iff it ends with it |
| RegistrationBusinessController.AuthorizedByListedDomain | src/main/java/de/mpg/imeji/logic/registration/RegistrationBusinessController.java:201-212 | an address ending with a listed entry is authorized |
| RegistrationBusinessController.EmptyEntryAuthorizesAll | src/main/java/de/mpg/imeji/logic/registration/RegistrationBusinessController.java:201-212 | an empty entry, from a leading comma or two commas in a row, authorizes every address |
| RegistrationBusinessController.ContainsTransitive | src/main/java/de/mpg/imeji/logic/registration/RegistrationBusinessController.java:221-224 | containment is transitive |
| RegistrationBusinessController.MatchUserNarrowing | src/main/java/de/mpg/imeji/logic/registration/RegistrationBusinessController.java:221-224 | a user matched by a query is matched by every part of it |
| RegistrationBusinessController.BlankPart | src/main/java/de/mpg/imeji/logic/registration/RegistrationBusinessController.java:221-224 | a part of a blank text is blank |
| RegistrationBusinessController.RegistrationBusinessController.constructor | src/main/java/de/mpg/imeji/logic/registration/RegistrationBusinessController.java:34-35 | a new store is empty |
| RegistrationBusinessController.RegistrationBusinessController.RetrieveByToken | src/main/java/de/mpg/imeji/logic/registration/RegistrationBusinessController.java:44-52 | answers the lookup by token |
| RegistrationBusinessController.RegistrationBusinessController.RetrieveByEmail | src/main/java/de/mpg/imeji/logic/registration/RegistrationBusinessController.java:61-69 | answers the lookup by e-mail |
| RegistrationBusinessController.RegistrationBusinessController.Delete | src/main/java/de/mpg/imeji/logic/registration/RegistrationBusinessController.java:100-102 | removes the entry under the registration's key |
| RegistrationBusinessController.RegistrationBusinessController.DeleteExpiredRegistration | src/main/java/de/mpg/imeji/logic/registration/RegistrationBusinessController.java:109-115 | the store keeps exactly the registrations that have not expired |
| RegistrationBusinessController.RegistrationBusinessController.RemoveAll | src/main/java/de/mpg/imeji/logic/registration/RegistrationBusinessController.java:156-160 | the store becomes empty |
| RegistrationBusinessController.RegistrationBusinessController.Register | src/main/java/de/mpg/imeji/logic/registration/RegistrationBusinessController.java:78-92 | an invalid user fails without change; otherwise the expired registrations go, then a pending registration for the e-mail or an existing account fails, and anything else is stored |
| RegistrationBusinessController.RegistrationBusinessController.Activate | src/main/java/de/mpg/imeji/logic/registration/RegistrationBusinessController.java:182-191 | an expired registration is refused without change; otherwise the account is a default user iff the whitelist authorizes the e-mail; when the user writer's `create` throws, that error propagates and the registration stays; only after a creation is the registration deleted |
| RegistrationBusinessController.RegistrationBusinessController.SearchInactiveUsers | src/main/java/de/mpg/imeji/logic/registration/RegistrationBusinessController.java:139-147 | exactly the users of pending registrations that the query matches |
| RestProcessUtils.ErrorTitle | src/main/java/de/mpg/imeji/rest/process/RestProcessUtils.java:133-142 | the reason phrase of a known status; "Unprocessable entity" for 422; otherwise that of 500; never empty |
| RestProcessUtils.ErrorTitleUnprocessable | src/main/java/de/mpg/imeji/rest/process/RestProcessUtils.java:137-138 | 422, which the status enum lacks, is titled "Unprocessable entity" |
| RestProcessUtils.ErrorCodeStatus | src/main/java/de/mpg/imeji/rest/process/RestProcessUtils.java:130 | the local code is "1" followed by the status, which can be read back from it |
| RestProcessUtils.BuildExceptionResponse | src/main/java/de/mpg/imeji/rest/process/RestProcessUtils.java:127-154 | code, title and message follow the status; a report without "id_error:" is kept whole with no id; wherever the code as written succeeds, the answer is the same |
| RestProcessUtils.MarkerFirstAt | src/main/java/de/mpg/imeji/rest/process/RestProcessUtils.java:143-146 | the marker is first found right after a text that does not hold it |
| RestProcessUtils.MarkerSplit | src/main/java/de/mpg/imeji/rest/process/RestProcessUtils.java:143-146 | splitting "a id_error:b" at the marker gives a and b |
| RestProcessUtils.IdErrorSplit | src/main/java/de/mpg/imeji/rest/process/RestProcessUtils.java:143-146 | a report "a id_error:b" gets id b and report a |
| RestProcessUtils.IdErrorAtEnd | src/main/java/de/mpg/imeji/rest/process/RestProcessUtils.java:143-146 | a report ending with its only marker fails as written, and the corrected answer has an empty id |
| RestProcessUtils.BuildJsonAndExceptionResponse | src/main/java/de/mpg/imeji/rest/process/RestProcessUtils.java:164-169 | the answer carries the status and the error object the corrected builder makes for it (see Left out) |
| RestProcessUtils.StatusOf | src/main/java/de/mpg/imeji/rest/process/RestProcessUtils.java:196-227 | each exception kind gets one of 400, 401, 403, 404, 405, 422, 500 |
| RestProcessUtils.StatusTitles | src/main/java/de/mpg/imeji/rest/process/RestProcessUtils.java:196-227 | only internal errors and unknown exceptions are titled as server errors; 422 is "Unprocessable entity" |
| RestProcessUtils.LocalExceptionHandler | src/main/java/de/mpg/imeji/rest/process/RestProcessUtils.java:196-227 | the message, or the localized message when it is null or empty, is reported under the exception's status, through the corrected builder (see Left out) |
| RetryQueue.IntoQueueKeepsValid | src/main/java/de/mpg/imeji/logic/db/indexretry/queue/RetryQueue.java:166-182 | adding to the queue keeps every request under its own URI, the queue within capacity, and every saved file keyed the same way |
| RetryQueue.PutKeepsValid | src/main/java/de/mpg/imeji/logic/db/indexretry/queue/RetryQueue.java:52 | the capacity is `2^10`, which Java reads as 8; a put keeps every request under its own URI and the queue within capacity |
| RetryQueue.NewUriStored | src/main/java/de/mpg/imeji/logic/db/indexretry/queue/RetryQueue.java:140-159 | a request for a new URI is stored iff no needed save fails |
| RetryQueue.DeleteReplaces | src/main/java/de/mpg/imeji/logic/db/indexretry/queue/RetryQueue.java:140-159 | a delete request replaces what is stored for its URI; a failed save changes nothing |
| RetryQueue.IndexNeverOverwrites | src/main/java/de/mpg/imeji/logic/db/indexretry/queue/RetryQueue.java:140-159 | a request that is not a delete leaves a queued URI's request as it is |
| RetryQueue.FullQueueSaved | src/main/java/de/mpg/imeji/logic/db/indexretry/queue/RetryQueue.java:166-182 | a full queue goes whole into the new backup file and the queue then holds only the new request; every other backup file stays, and one already saved under the same name is overwritten, so nothing is lost only when no file has that name |
| RetryQueue.PutAllKeepsValid | src/main/java/de/mpg/imeji/logic/db/indexretry/queue/RetryQueue.java:116-123 | putting a list keeps the store keyed and within capacity |
| RetryQueue.PutAllStep | src/main/java/de/mpg/imeji/logic/db/indexretry/queue/RetryQueue.java:116-123 | putting one more request extends the list's result by one put |
| RetryQueue.TimePart | src/main/java/de/mpg/imeji/logic/db/indexretry/queue/RetryQueue.java:237-241 | the time part of a backup name reads as a long; a name too short to cut throws |
| RetryQueue.FileNameRoundTrip | src/main/java/de/mpg/imeji/logic/db/indexretry/queue/RetryQueue.java:215-241 | a name written at some time is recognised as a backup and its time part reads back as that time |
| RetryQueue.LatestIsMaximal | src/main/java/de/mpg/imeji/logic/db/indexretry/queue/RetryQueue.java:229-250 | the file chosen is a listed backup whose time is the largest of all listed backups; none is chosen iff none is listed |
| RetryQueue.LatestFailureSticks | src/main/java/de/mpg/imeji/logic/db/indexretry/queue/RetryQueue.java:229-250 | a failure while reading the listing ends the scan with that failure |
| RetryQueue.RetryQueue.constructor | src/main/java/de/mpg/imeji/logic/db/indexretry/queue/RetryQueue.java:66-70 | a new queue is empty over the backup directory found |
| RetryQueue.RetryQueue.SaveQueueToFile | src/main/java/de/mpg/imeji/logic/db/indexretry/queue/RetryQueue.java:257-275 | a non-empty queue is written to a new file and emptied, and an I/O error is reported iff the write fails |
| RetryQueue.RetryQueue.PutIntoQueue | src/main/java/de/mpg/imeji/logic/db/indexretry/queue/RetryQueue.java:166-182 | the new store is the function's |
| RetryQueue.RetryQueue.PutRetryIndexRequest | src/main/java/de/mpg/imeji/logic/db/indexretry/queue/RetryQueue.java:140-159 | the new store is the function's |
| RetryQueue.RetryQueue.AddRetryIndexRequests | src/main/java/de/mpg/imeji/logic/db/indexretry/queue/RetryQueue.java:116-123 | the new store is the one the requests put in turn give |
| RetryQueue.RetryQueue.FindLatestRetryQueueFile | src/main/java/de/mpg/imeji/logic/db/indexretry/queue/RetryQueue.java:229-250 | answers the scan over the whole listing |
| RetryQueue.RetryQueue.MoreRequestsExist | src/main/java/de/mpg/imeji/logic/db/indexretry/queue/RetryQueue.java:189-204 | a non-empty queue answers true unchanged; an empty one loads the latest backup and deletes it, answers false iff there is none, and fails when the listing cannot be read |
| SearchQueryParser.BinarySearch | src/main/java/de/mpg/imeji/logic/search/SearchQueryParser.java:501-503 | the JDK's binary search: a non-negative answer is an index holding the key |
| SearchQueryParser.SpecialCharactersFound | src/main/java/de/mpg/imeji/logic/search/SearchQueryParser.java:51 | over the unsorted special characters the search finds '(' ')' '=' '>' and misses '<' |
| SearchQueryParser.EscapeAsWritten | src/main/java/de/mpg/imeji/logic/search/SearchQueryParser.java:511-515 | every character is escaped as written, so nothing is lost |
| SearchQueryParser.EscapeChar | src/main/java/de/mpg/imeji/logic/search/SearchQueryParser.java:533-538 | every special character gets a leading '\', any other is copied |
| SearchQueryParser.Escape | src/main/java/de/mpg/imeji/logic/search/SearchQueryParser.java:511-515 | escaping never shortens a text |
| SearchQueryParser.Unescape | src/main/java/de/mpg/imeji/logic/search/SearchQueryParser.java:523-525 | no '\' is left |
| SearchQueryParser.UnescapeRemovesAll | src/main/java/de/mpg/imeji/logic/search/SearchQueryParser.java:523-525 | no '\' survives the replacement |
| SearchQueryParser.EscapeCharAsWrittenMisses | src/main/java/de/mpg/imeji/logic/search/SearchQueryParser.java:501-538 | as written exactly "()=>" are escaped and "<" is copied as it is, where the corrected escape writes "\<" |
| SearchQueryParser.EscapeAgreesWithoutLess | src/main/java/de/mpg/imeji/logic/search/SearchQueryParser.java:511-538 | the two escapes agree on every text without '<' |
| SearchQueryParser.UnescapeEscape | src/main/java/de/mpg/imeji/logic/search/SearchQueryParser.java:511-525 | unescaping undoes escaping for a text without a '\' of its own |
| SearchQueryParser.StringToOperator | src/main/java/de/mpg/imeji/logic/search/SearchQueryParser.java:294-307 | never REGEX; an unknown text reads as EQUALS |
| SearchQueryParser.OperatorToUrl | src/main/java/de/mpg/imeji/logic/search/SearchQueryParser.java:455-470 | always one of "=", ">", "<", ">=", "<=" |
| SearchQueryParser.OperatorRoundTrip | src/main/java/de/mpg/imeji/logic/search/SearchQueryParser.java:294-470 | every operator but REGEX survives writing and reading; REGEX comes back as EQUALS |
| SearchQueryParser.ReadRelation | src/main/java/de/mpg/imeji/logic/search/SearchQueryParser.java:263-265 | OR iff the text ends with "OR" |
| SearchQueryParser.RemoveRelationPlain | src/main/java/de/mpg/imeji/logic/search/SearchQueryParser.java:273-275 | a text without " AND" and " OR" is only trimmed |
| SearchQueryParser.StopWordSuffix | src/main/java/de/mpg/imeji/logic/search/SearchQueryParser.java:283-286 | a text ending with " AND " or " OR " ends with a stop word unless it trims to the bare keyword |
| SearchQueryParser.Scan | src/main/java/de/mpg/imeji/logic/search/SearchQueryParser.java:117-128 | the character is appended, an unescaped '(' opens a bracket, and a pending "NOT" sets the flag and empties the text |
| SearchQueryParser.Step | src/main/java/de/mpg/imeji/logic/search/SearchQueryParser.java:116-146 | one turn keeps the pending text within what has been read |
| SearchQueryParser.Dispatch | src/main/java/de/mpg/imeji/logic/search/SearchQueryParser.java:129-145 | a turn adds at most one element, with the current relation, and changes the relation only when it adds one |
| SearchQueryParser.SubGroupEntries | src/main/java/de/mpg/imeji/logic/search/SearchQueryParser.java:129-139 | a closed bracket becomes one more element; a text shorter than two characters fails |
| SearchQueryParser.DispatchSubGroup | src/main/java/de/mpg/imeji/logic/search/SearchQueryParser.java:129-139 | a closed outermost bracket becomes a sub-group and the state is reset |
| SearchQueryParser.DispatchLeaf | src/main/java/de/mpg/imeji/logic/search/SearchQueryParser.java:139-145 | outside brackets a text ending with a stop word becomes a leaf, and the relation becomes the one it ends with |
| SearchQueryParser.DispatchPending | src/main/java/de/mpg/imeji/logic/search/SearchQueryParser.java:129-146 | outside brackets a text without a stop word stays pending |
| SearchQueryParser.DispatchInBracket | src/main/java/de/mpg/imeji/logic/search/SearchQueryParser.java:129-146 | inside an open bracket the text stays pending |
| SearchQueryParser.ParseGroup | src/main/java/de/mpg/imeji/logic/search/SearchQueryParser.java:106-157 | the reader loop gives the elements of the parser function, or its error |
| SearchQueryParser.Flush | src/main/java/de/mpg/imeji/logic/search/SearchQueryParser.java:148-151 | a non-blank remainder is added as a last element |
| SearchQueryParser.ReadCharacter | src/main/java/de/mpg/imeji/logic/search/SearchQueryParser.java:116-146 | the loop body does one turn of the parser function |
| SearchQueryParser.ParseNullQuery | src/main/java/de/mpg/imeji/logic/search/SearchQueryParser.java:75-78 | a null query parses to no elements |
| SearchQueryParser.ParseFirstRelation | src/main/java/de/mpg/imeji/logic/search/SearchQueryParser.java:115 | the first element of every group is added with AND |
| SearchQueryParser.ParsePlain | src/main/java/de/mpg/imeji/logic/search/SearchQueryParser.java:106-157 | a text without brackets, NOT or stop words is one leaf of its trimmed text, or nothing when blank |
| SearchQueryParser.StrayClosingBracket | src/main/java/de/mpg/imeji/logic/search/SearchQueryParser.java:283-286 | outside brackets a ')' with no '(' pending makes the whole query fail |
| SearchQueryParser.GroupToUrl | src/main/java/de/mpg/imeji/logic/search/SearchQueryParser.java:380-383 | an empty group writes as ""; any other as its optional "NOT " and its elements in brackets, values escaped by the corrected escape (see Left out) |
| SearchQueryParser.ToUrl | src/main/java/de/mpg/imeji/logic/search/SearchQueryParser.java:344-371 | the query written is trimmed; values are escaped by the corrected escape (see Left out) |
| SearchQueryParser.Transform2Url | src/main/java/de/mpg/imeji/logic/search/SearchQueryParser.java:344-371 | the loop writes what the function does, with the corrected escape (see Left out) |
| SearchQueryParser.SearchGroupToStringQuery | src/main/java/de/mpg/imeji/logic/search/SearchQueryParser.java:380-383 | the method writes what the function does, with the corrected escape (see Left out) |
| SearchQueryParser.SingleElement | src/main/java/de/mpg/imeji/logic/search/SearchQueryParser.java:344-371 | one element writes as its own text, trimmed |
| SearchQueryParser.EmptyGroup | src/main/java/de/mpg/imeji/logic/search/SearchQueryParser.java:380-383 | an empty group writes as "" whatever its NOT flag |
| SearchQueryParser.IsSimpleSearch | src/main/java/de/mpg/imeji/logic/search/SearchQueryParser.java:315-322 | true iff some top-level pair searches the free-text field |
| SessionBean.StyleValueOf | src/main/java/de/mpg/imeji/presentation/session/SessionBean.java:96-98 | a style found by name has that name; an unknown name gives none |
| SessionBean.StyleValueOfName | src/main/java/de/mpg/imeji/presentation/session/SessionBean.java:53-98 | every style is found again by its own name |
| SessionBean.CheckedCss | src/main/java/de/mpg/imeji/presentation/session/SessionBean.java:273-286 | the alternative style only while it is configured, the default one only while it is configured, and no style only when the default one is not |
| SessionBean.CheckedCssTransitions | src/main/java/de/mpg/imeji/presentation/session/SessionBean.java:273-286 | the three corrections: a missing alternative falls back to the default, a missing default to none, and none goes back to a configured default |
| SessionBean.CheckedCssIdempotent | src/main/java/de/mpg/imeji/presentation/session/SessionBean.java:273-286 | checking twice against the same configuration changes nothing more |
| SessionBean.ToggledCss | src/main/java/de/mpg/imeji/presentation/session/SessionBean.java:304-307 | toggling always gives a style, and another one |
| SessionBean.ToggledCssTwice | src/main/java/de/mpg/imeji/presentation/session/SessionBean.java:304-307 | toggling twice restores a default or alternative style |
| SessionBean.ToggledBrowseView | src/main/java/de/mpg/imeji/presentation/session/SessionBean.java:404-409 | toggling gives the list or the thumbnail view, and another one when it was one of them |
| SessionBean.ToggledBrowseViewTwice | src/main/java/de/mpg/imeji/presentation/session/SessionBean.java:404-409 | toggling twice restores the list or thumbnail view |
| SessionBean.InstituteByUserSpec | src/main/java/de/mpg/imeji/presentation/session/SessionBean.java:340-345 | the institute of "name@domain" is the domain; an address without '@' throws |
| SessionBean.SessionBean.constructor | src/main/java/de/mpg/imeji/presentation/session/SessionBean.java:76-82 | a new session has the style and view of its cookies, no selection, an empty clipboard and no user |
| SessionBean.SessionBean.CheckCss | src/main/java/de/mpg/imeji/presentation/session/SessionBean.java:273-286 | the new style is the checked one and nothing else changes |
| SessionBean.SessionBean.ToggleCss | src/main/java/de/mpg/imeji/presentation/session/SessionBean.java:304-307 | the style toggles and its name goes into the style cookie |
| SessionBean.SessionBean.ToggleBrowseView | src/main/java/de/mpg/imeji/presentation/session/SessionBean.java:404-409 | the view toggles and goes into the browse-view cookie |
| SessionBean.SessionBean.AddToClipBoard | src/main/java/de/mpg/imeji/presentation/session/SessionBean.java:440-442 | every selected item joins the clipboard and the selection stays |
| SessionBean.SessionBean.ClearClipboard | src/main/java/de/mpg/imeji/presentation/session/SessionBean.java:447-449 | the clipboard becomes empty and nothing else changes |
| ShareService.RoleOf | src/main/java/de/mpg/imeji/logic/share/ShareService.java:41-43 | a name gives a role iff it is READ, EDIT or ADMIN, and that role has the name |
| ShareService.RoleNames | src/main/java/de/mpg/imeji/logic/share/ShareService.java:178-184 | one name per role, in order |
| ShareService.RolesAsList | src/main/java/de/mpg/imeji/logic/share/ShareService.java:178-184 | the loop lists the role names in order |
| ShareService.RoleNamesRoundTrip | src/main/java/de/mpg/imeji/logic/share/ShareService.java:41-184 | every listed name reads back as its role |
| ShareService.ToGrant | src/main/java/de/mpg/imeji/logic/share/ShareService.java:216-228 | no grant for no role; a known role gives its grant on the URI; an unknown one throws |
| ShareService.TransformGrantToRole | src/main/java/de/mpg/imeji/logic/share/ShareService.java:195-207 | no role for no grant; a grant type that is a role name gives that role; any other throws |
| ShareService.RoleGrantRoundTrip | src/main/java/de/mpg/imeji/logic/share/ShareService.java:195-228 | a role made into a grant reads back as the same role |
| ShareService.GrantRoleRoundTrip | src/main/java/de/mpg/imeji/logic/share/ShareService.java:195-228 | a grant whose type is a role is rebuilt unchanged from its role |
| ShareService.WithoutUri | src/main/java/de/mpg/imeji/logic/share/ShareService.java:281-282 | only grants not ending with the URI are kept |
| ShareService.WithoutUriKeeps | src/main/java/de/mpg/imeji/logic/share/ShareService.java:281-282 | every grant not ending with the URI is kept |
| ShareService.AddGrantSpec | src/main/java/de/mpg/imeji/logic/share/ShareService.java:279-287 | the result holds exactly the old grants not ending with the URI and the new grant, which comes last; without a new grant no grant on the URI is left |
| ShareService.AddGrantReplaces | src/main/java/de/mpg/imeji/logic/share/ShareService.java:279-287 | a new grant for the URI is then its only grant on it |
| ShareService.CheckSecurity | src/main/java/de/mpg/imeji/logic/share/ShareService.java:297-302 | no error iff the user administrates the URI |
| ShareService.GlobalSharingSpec | src/main/java/de/mpg/imeji/logic/share/ShareService.java:53-97 | global sharing succeeds iff the sharer administrates the global URI; ADMIN makes a sysadmin, unsharing the sysadmin is granting create-collection, and READ takes create-collection away |
| ShareService.ShareToUserSpec | src/main/java/de/mpg/imeji/logic/share/ShareService.java:108-115 | an unknown role throws before any check; then success iff the sharer administrates the URI; the user keeps id and groups and holds the role's grant as its only one on the URI, or none without a role |
| ShareService.ShareToGroupSpec | src/main/java/de/mpg/imeji/logic/share/ShareService.java:126-133 | the same for a group's grants |
| StorageUtils.LastSeparator | src/main/java/de/mpg/imeji/logic/util/StorageUtils.java:232 | the last '/' or '\' of a name, or -1 |
| StorageUtils.ExtensionDot | src/main/java/de/mpg/imeji/logic/util/StorageUtils.java:232 | the extension dot is a '.' after the last separator |
| StorageUtils.RemoveExtensionJoin | src/main/java/de/mpg/imeji/logic/util/StorageUtils.java:412 | the name without its extension, then "." and the extension, is the name again; a name without one is left whole with extension "" |
| StorageUtils.ExtensionPlain | src/main/java/de/mpg/imeji/logic/util/StorageUtils.java:232 | an extension holds no '.' and no separator |
| StorageUtils.ExtensionOfAppended | src/main/java/de/mpg/imeji/logic/util/StorageUtils.java:412 | appending "." and a plain extension makes it the extension and leaves the base as the rest |
| StorageUtils.KnownMimeType | src/main/java/de/mpg/imeji/logic/util/StorageUtils.java:334-394 | the table's entries are non-empty mime types |
| StorageUtils.DetectedMimeType | src/main/java/de/mpg/imeji/logic/util/StorageUtils.java:395-401 | Tika's answer for "name." and the extension, or the default type when it is empty |
| StorageUtils.MimeType | src/main/java/de/mpg/imeji/logic/util/StorageUtils.java:330-403 | never empty; after lower-casing, an extension in the table gets its entry, one outside it goes to Tika, and null goes to Tika as "null" |
| StorageUtils.MimeTypeTable | src/main/java/de/mpg/imeji/logic/util/StorageUtils.java:334-388 | in any case, jpg and jpeg are image/jpeg, tif image/tiff, mp3 and mpeg audio/mpeg, and jpf image/jp2 (its own later entry is never reached) |
| StorageUtils.MimeTypeIgnoresCase | src/main/java/de/mpg/imeji/logic/util/StorageUtils.java:331-333 | an extension and its lower-case form have the same mime type |
| StorageUtils.CompareExtension | src/main/java/de/mpg/imeji/logic/util/StorageUtils.java:301-311 | a null extension throws; a blank one compares false |
| StorageUtils.CompareExtensionSymmetric | src/main/java/de/mpg/imeji/logic/util/StorageUtils.java:301-311 | the comparison does not depend on the order of its arguments |
| StorageUtils.CompareJpegSpellings | src/main/java/de/mpg/imeji/logic/util/StorageUtils.java:301-311 | any spelling of jpg or jpeg, with spaces around it, names the same format |
| StorageUtils.ExtensionFromFileName | src/main/java/de/mpg/imeji/logic/util/StorageUtils.java:230-241 | "" for null; the extension when it is 1 to 20 letters or digits; otherwise " " |
| StorageUtils.ExtensionFromFileNameShape | src/main/java/de/mpg/imeji/logic/util/StorageUtils.java:230-241 | for a name the answer is " " or a well-formed extension that the name ends with after a '.' |
| StorageUtils.ReplaceExtensionSpec | src/main/java/de/mpg/imeji/logic/util/StorageUtils.java:411-413 | the new extension reads back, and replacing twice is replacing once with the second |
| SuperPaginatorBean.PageNumbers | src/main/java/de/mpg/imeji/presentation/beans/SuperPaginatorBean.java:151-154 | the list the loop builds is 1, 2, ..., n |
| SuperPaginatorBean.PageCountCeiling | src/main/java/de/mpg/imeji/presentation/beans/SuperPaginatorBean.java:151-154 | for a non-empty result the page count is the ceiling of total over page size |
| SuperPaginatorBean.EmptyResultPages | src/main/java/de/mpg/imeji/presentation/beans/SuperPaginatorBean.java:151-154 | with truncating division an empty result has one page, or none at one element per page |
| SuperPaginatorBean.OffsetOnPage | src/main/java/de/mpg/imeji/presentation/beans/SuperPaginatorBean.java:192-194 | every listed page starts at an existing element, and the pages follow each other without gap |
| SuperPaginatorBean.PaginatorWindow | src/main/java/de/mpg/imeji/presentation/beans/SuperPaginatorBean.java:303-311 | the seven-link window holds the current page, stays within the list when there are more than seven pages, and starts at 1 otherwise |
| SuperPaginatorBean.ToggledOrder | src/main/java/de/mpg/imeji/presentation/beans/SuperPaginatorBean.java:366-374 | DESCENDING becomes ASCENDING and anything else DESCENDING |
| SuperPaginatorBean.UrlParameters | src/main/java/de/mpg/imeji/presentation/beans/SuperPaginatorBean.java:109-121 | a missing parameter reads as 0, a value read is a Java int, and a value `Integer.parseInt` rejects ("" included) throws a NumberFormatException; digits of any script are read |
| SuperPaginatorBean.UrlParametersRoundTrip | src/main/java/de/mpg/imeji/presentation/beans/SuperPaginatorBean.java:109-121 | a page and page size written as parameters are read back |
| JavaStrings.JavaDigit | src/main/java/de/mpg/imeji/presentation/beans/SuperPaginatorBean.java:113-114 | `Character.digit`, through which `parseInt` reads: a character is a digit iff it lies in one of the BMP's runs of ten decimal digits, and its value is its offset from that run's zero; the ASCII digits keep their values, and below U+0660 they are the only digits |
| JavaStrings.JavaDigitFullwidth | src/main/java/de/mpg/imeji/presentation/beans/SuperPaginatorBean.java:113-114 | fullwidth, Arabic-Indic and Devanagari threes read as 3, and the fullwidth "３" parses as the int 3 |
| SuperPaginatorBean.NewPaginator | src/main/java/de/mpg/imeji/presentation/beans/SuperPaginatorBean.java:89-94 | the constructor throws iff `Integer.parseInt` rejects a parameter (digits of any script are read); otherwise page and page size are the parameters read, with an empty page list, no go-to page and no sort criterion |
| SuperPaginatorBean.SuperPaginatorBean.constructor | src/main/java/de/mpg/imeji/presentation/beans/SuperPaginatorBean.java:89-94 | the bean holds the page and page size read, an empty page list, a null go-to page, no sort criterion and the descending order |
| SuperPaginatorBean.SuperPaginatorBean.Update | src/main/java/de/mpg/imeji/presentation/beans/SuperPaginatorBean.java:139-159 | unset page size and page become 24 and 1, the go-to page shows the current page, and the page list is rebuilt as 1 to the page count |
| SuperPaginatorBean.SuperPaginatorBean.PageOffset | src/main/java/de/mpg/imeji/presentation/beans/SuperPaginatorBean.java:201-206 | the number of page links before the window |
| SuperPaginatorBean.SuperPaginatorBean.GotoPageNumber | src/main/java/de/mpg/imeji/presentation/beans/SuperPaginatorBean.java:257-268 | only an existing page is selected; then the list is updated: unset page size and page become 24 and 1, the page list is rebuilt for the total, and the sort selection stays |
| SuperPaginatorBean.SuperPaginatorBean.ElementsPerPageListener | src/main/java/de/mpg/imeji/presentation/beans/SuperPaginatorBean.java:249-255 | a new page size restarts at page 1 and rebuilds the list, the sort selection staying; a missing value changes nothing at all |
| SuperPaginatorBean.SuperPaginatorBean.ToggleSortOrder | src/main/java/de/mpg/imeji/presentation/beans/SuperPaginatorBean.java:366-374 | the order toggles and the criterion stays; the page state is updated as by update |
| SuperPaginatorBean.SuperPaginatorBean.ChangeSelectedSortCriterion | src/main/java/de/mpg/imeji/presentation/beans/SuperPaginatorBean.java:348-356 | a new criterion is selected, the same one toggles the order, and either way the page state is updated; comparing with no criterion throws and changes nothing |

## Left out

- Storage, search engine, triple store, network and file I/O: the modules take their answers as parameters or return the changed object instead of persisting it.
- Threads and serialisation of the retry queue: the backup directory is a map from file name to queue, and the clock and the failure of each file operation are inputs.
- Case mapping in `JavaStrings` is ASCII-only: `toLowerCase`/`toUpperCase` of other letters is not modelled.
- Regular expressions are modelled through what they match in the cases used: the store keys "token:.*" and ".*:email" are prefix and suffix tests, so a token or e-mail holding regex characters is read literally.
- RegistrationBusinessController: the key of a registration is assumed to be "token:email"; the user store, password generation and e-mail validation are parameters, and so is the outcome of the user writer's `create` (its security check and validation), `Activate`'s `createFails`.
- AuthorizationPredefinedRoles: java.net.URI's RFC 2396 parser is the parameter `parses` of `CreateUri`. `CollectionCreatorOf` and `AllOf` carry the exceptions of `URI.create`. The other roles (`RestrictedUser` to `AlbumCreator`) are their grant lists on URIs that parse; on a null or malformed URI each throws at its first `toGrantList`, as `GrantListOf` states.
- JavaDigit: the runs of decimal digits are those of Unicode 6.2, as in Java 8. Java 9 and later also read the Sinhala Lith (U+0DE6) and Myanmar Tai Laing (U+A9F0) digits, which are not digits here.
- RestProcessUtils: the reason phrases are those of the JAX-RS 2.0 status enum; the exception hierarchy is flat (one kind per `instanceof` branch); JSON marshalling and logging are not modelled.
- FileServlet: the Firefox branch of doRangeRequest is modelled in `DoRangeRequestAsWritten`, but doGet never takes it, since it range-serves only other clients; the bytes read and written are not modelled; the login's outcome and `isAllowedToViewFile` are parameters.
- InternalStorageManager: the resolutions are tried in the order THUMBNAIL, WEB, ORIGINAL, FULL (Storage.java is not part of this model); normalizeFilename is not modelled (the URL builder takes the normalized name); the UUID generator and the existence test are parameters.
- StorageUtils: Tika's detection is the `Detector` parameter; guessExtension, getExtension(File), getExtension(String), getMimeType(File), hasExtension and isImage read files or ask Tika and are not modelled.
- ItemDetailsBrowse: the search and the URL helper are parameters; the `type ==` test is reference equality in Java and value equality here; URI parsing is abstracted; the sort criteria are not modelled; a "pos" that `Integer.parseInt` rejects is `PositionParameter` None.
- LinkedCollection: a null type name in `setLinkedCollectionType` and the plain getters and setters are not modelled.
- default.js: `isNumber` is the parameter `numeric`; the DOM, dialogs, ajax calls, sortOptionsByText, highlighting, placeholders and a missing data-url are not modelled.
- ItemService: the store, updateBatch and removeFileFromStorage are I/O; prepareRelease and prepareWithdraw are assumed to set the status to released and withdrawn; the active licence is one field; the collection creator's quota and the uploading user's disk usage are parameters; setFiletype and the FilenameUtils checks for NTFS names are not modelled.
- MdProfileBean: insertMetadata, insertChild, reInitWrappers, labels and vocabularies are not modelled; the sort is a stable sort by position (the wrapper class defines no order of its own); getChilds carries a step bound equal to the number of wrappers, which on an acyclic list its walk never exceeds (`AllChildrenSpec`); on a cyclic list, where the source's recursion does not end, the bounded listing is not a model of it; a profile that could not be retrieved (no wrappers at all) is not modelled, and the id the factory gives a new statement is a parameter.
- HierarchyService: every walk carries a step bound (the number of nodes, or of tree entries for the walk down), which an acyclic hierarchy never exhausts (`GetLastParentIsRoot`, `FindAllSubcollectionsSpec`); a cyclic hierarchy, on which the service does not terminate, is not modelled.
- CollectionValidator: a null title, additional-info label, family name or organization name becomes a NullPointer outcome; the HTML check of the description, the URL check of linked collections, the geo-coordinates and the configured collection types are given through `Env`.
- ImejiConfiguration: reading and writing conf.xml and fetchDataViewerFormats are not modelled; the long file-type and blacklist defaults are parameters.
- ElasticQueryFactory: the query builders are the `Query` datatype, and buildSearchQuery, which drives them, is not modelled.
- ShareService: findRole needs SecurityUtil.getGrantForObject, which is not part of this model.
- SessionBean: findInstitute needs the IP lookup of MaxPlanckInstitutUtils and is not modelled; the user is represented by its e-mail address.
- SuperPaginatorBean: the list of elements and its retrieval are not modelled; only the counts are; setCookieSortValue and setCookieSortOrder are abstract (each page bean writes its own cookie) and are not modelled.
- GotToPage: stores the corrected page list `PageList`, never starting below page 1, where the source computes `PageListAsWritten` (the second row of Findings); the two agree whenever there are more than 20 pages (`PageListAgrees`).
- InitPageList: computes the corrected `PageList` instead of `PageListAsWritten`, for the same reason.
- GetPageList: computes the corrected `PageList` instead of `PageListAsWritten`, for the same reason.
- CreateSource: decides the download with the corrected `DownloadFile` instead of `DownloadFileAsWritten` (the last row of Findings); the two differ only for a blank fetch URL that is not empty (`DownloadFileAgrees`).
- BuildJsonAndExceptionResponse: uses the corrected `BuildExceptionResponse`, which answers with an empty id where the source's builder (`BuildExceptionResponseAsWritten`) throws on a report ending in "id_error:" (`IdErrorAtEnd`).
- LocalExceptionHandler: reports through the corrected `BuildExceptionResponse`, as `BuildJsonAndExceptionResponse` does.
- GroupToUrl: escapes values with the corrected `Escape` instead of `EscapeAsWritten` (the first row of Findings); the two agree on every text without '<' (`EscapeAgreesWithoutLess`).
- ToUrl: escapes values with the corrected `Escape`, as `GroupToUrl` does.
- Transform2Url: escapes values with the corrected `Escape`, as `GroupToUrl` does.
- SearchGroupToStringQuery: escapes values with the corrected `Escape`, as `GroupToUrl` does.
- InsertWrapper: uses the corrected ancestry walk `IsAParentAt`, which stops at the head of the list where the source's `isAParent` loops (`IsAParentLoopsAtHead`, `IsAParentAgrees`).
- DoGet: answers a range starting at or past the end of the file with the corrected 416 of `RangeResponse` (checking the user's right first) where the source sends 206 (`RangeAsWrittenPastEnd`), and fills in a last position of 0.
- ParseGroup: keeps every leaf as raw text; parsePair's classification of a leaf into field, operator and value, and the UnprocessableError that parseGroup raises for a leaf naming an unknown field, are not modelled, so `Parse` succeeds where the source fails on such a leaf; the URL decoding of the query before parsing is not modelled either.
- ParseGrant: Grant.java is not part of this model; a grant string is assumed to be "TYPE,URI", split at the first comma, and a string without a comma is no grant, which `HasReadGrant` and `HasEditGrant` then skip.

## Findings

| source | as written | input that shows it | evidently intended | confidence | as-written member | corrected member |
|---|---|---|---|---|---|---|
| src/main/java/de/mpg/imeji/logic/search/SearchQueryParser.java:501-503 | `isSpecialCharacter` runs a binary search over the special characters `( ) = > <`, which are not sorted | the text "<": the search misses '<', so `escape` leaves it unescaped | every listed special character is escaped | not executed | SearchQueryParser.EscapeCharAsWrittenMisses | SearchQueryParser.UnescapeEscape |
| src/main/java/de/mpg/imeji/presentation/item/edit/selected/EditItemsSelectedBean.java:435-444 | when the window would run past the last page it starts at total - 20, even when that is below 1 | page 11 of 15 pages: the list starts at -5 and holds -5 to 15 | the page list never starts below page 1 | not executed | EditItemsSelectedBean.PageListAsWrittenStartsBelowOne | EditItemsSelectedBean.PageListBounds |
| src/main/java/de/mpg/imeji/presentation/mdProfile/MdProfileBean.java:347-357 | `isAParent` steps back to the previous wrapper, but at position 0 it stays there | a single child statement at position 0 whose parent is not the one asked for: the loop never ends | the walk stops at the head of the list | not executed | MdProfileBean.IsAParentLoopsAtHead | MdProfileBean.IsAParentAtSpec |
| src/main/java/de/mpg/imeji/presentation/storage/FileServlet.java:194-205 | a range start at or past the end of the file is answered 206 | a 10-byte file asked from byte 10: Content-Length 0 | 416, as section 4.4 of RFC 7233 requires | not executed | FileServlet.RangeAsWrittenPastEnd | FileServlet.RangeResponse |
| src/main/java/de/mpg/imeji/presentation/storage/FileServlet.java:201-204 | the last byte position is left out of Content-Range when it is 0 | a 1-byte file asked from byte 0: "bytes 0-/1" | "bytes 0-0/1" | not executed | FileServlet.RangeAsWrittenLastZero | FileServlet.RangeResponse |
| src/main/java/de/mpg/imeji/rest/process/RestProcessUtils.java:143-146 | the id is taken as the second piece of the report split at "id_error:" | a report "failed id_error:": `split` drops the empty last piece, so the index is out of bounds | an empty id | not executed | RestProcessUtils.IdErrorAtEnd | RestProcessUtils.BuildExceptionResponse |
| src/main/java/de/mpg/imeji/logic/core/item/ItemService.java:709-733 | the file's URL skips a blank fetch URL, but the download test only skips null or "" | fetch URL " " with a reference URL: the referenced file is downloaded and copied into the storage | a blank fetch URL counts as none, so the reference is only linked | not executed | ItemService.BlankFetchDownloadsReference | ItemService.DownloadFileChoosesFetch |
