// Self-registration of users
// (de.mpg.imeji.logic.registration.RegistrationBusinessController). A
// pending registration waits in a key-value store under
// "<token>:<email>" until it is activated or expires. Time is a number of
// milliseconds; the user store, the password generator and the validator
// are outside the model and enter as parameters.
module RegistrationBusinessController {
  import opened Wrappers
  import opened JavaStrings

  /** The parts of the registered user the controller reads. */
  datatype RegUser = RegUser(email: string, completeName: string, organization: string)

  datatype Registration = Registration(token: string, user: RegUser, creationDate: int)

  /** `Registration.getKey`: "<token>:<email>". */
  function Key(r: Registration): string {
    r.token + ":" + r.user.email
  }

  type Store = map<string, Registration>

  /** Every registration is stored under its own key. */
  predicate WellKeyed(store: Store) {
    forall k :: k in store ==> k == Key(store[k])
  }

  /** The errors thrown here: `NotAllowed` is the user writer's security check refusing a creation. */
  datatype Error = NotFound | Unprocessable | AlreadyExists | Invalid | NotAllowed

  /** The type of account an activation creates. */
  datatype UserType = DefaultUser | Restricted

  const DayMillis: int := 86400000

  /** `isExpired`: the current time is after the creation date plus the configured number of days. */
  predicate Expired(r: Registration, now: int, expiryDays: int) {
    now > r.creationDate + expiryDays * DayMillis
  }

  // ---------------------------------------------------------------------
  // Lookups

  /** The keys the pattern "<token>:.*" matches. */
  function TokenKeys(store: Store, token: string): set<string> {
    set k | k in store && StartsWith(k, token + ":")
  }

  /** The keys the pattern ".*:<email>" matches. */
  function EmailKeys(store: Store, email: string): set<string> {
    set k | k in store && EndsWith(k, ":" + email)
  }

  lemma SingletonMember(s: set<string>, x: string, y: string)
    requires |s| == 1 && x in s && y in s
    ensures x == y
  {
    assert |s - {x}| == 0;
  }

  /** `retrieveByToken`: the one registration whose key starts with the token, else NotFound. */
  ghost function ByToken(store: Store, token: string): (r: Result<Registration, Error>)
    ensures r.Success? <==> |TokenKeys(store, token)| == 1
    ensures r.Success? ==> TokenKeys(store, token) == {Key(r.value)} || !WellKeyed(store)
  {
    var keys := TokenKeys(store, token);
    if |keys| == 1 then
      var k :| k in keys;
      assert keys == {k} by {
        forall y | y in keys ensures y == k { SingletonMember(keys, k, y); }
      }
      Success(store[k])
    else Failure(NotFound)
  }

  /** `retrieveByEmail`: the one registration whose key ends with the e-mail, else NotFound. */
  ghost function ByEmail(store: Store, email: string): (r: Result<Registration, Error>)
    ensures r.Success? <==> |EmailKeys(store, email)| == 1
    ensures r.Success? ==> EmailKeys(store, email) == {Key(r.value)} || !WellKeyed(store)
  {
    var keys := EmailKeys(store, email);
    if |keys| == 1 then
      var k :| k in keys;
      assert keys == {k} by {
        forall y | y in keys ensures y == k { SingletonMember(keys, k, y); }
      }
      Success(store[k])
    else Failure(NotFound)
  }

  /** A registration stored under a fresh token is found by that token. */
  lemma ByTokenAfterPut(store: Store, reg: Registration)
    requires WellKeyed(store)
    requires forall k :: k in store ==> !StartsWith(k, reg.token + ":")
    ensures ByToken(store[Key(reg) := reg], reg.token) == Success(reg)
  {
    var s := store[Key(reg) := reg];
    assert StartsWith(Key(reg), reg.token + ":") by {
      assert Key(reg)[..|reg.token + ":"|] == reg.token + ":";
    }
    assert TokenKeys(s, reg.token) == {Key(reg)};
  }

  /** Only the registrations that have not expired stay. */
  function Unexpired(store: Store, now: int, expiryDays: int): (r: Store)
    ensures forall k :: k in r ==> !Expired(r[k], now, expiryDays)
    ensures forall k :: k in store && !Expired(store[k], now, expiryDays) ==> k in r && r[k] == store[k]
    ensures forall k :: k in r ==> k in store
    ensures WellKeyed(store) ==> WellKeyed(r)
  {
    map k | k in store && !Expired(store[k], now, expiryDays) :: store[k]
  }

  /** Removing the expired registrations a second time removes nothing. */
  lemma UnexpiredIdempotent(store: Store, now: int, expiryDays: int)
    ensures Unexpired(Unexpired(store, now, expiryDays), now, expiryDays) == Unexpired(store, now, expiryDays)
  {
    var once := Unexpired(store, now, expiryDays);
    assert Unexpired(once, now, expiryDays).Keys == once.Keys;
  }

  // ---------------------------------------------------------------------
  // The whitelist and the search

  /**
   * The rule of `isAuthorizedEmail`: a blank whitelist lets everyone in,
   * otherwise the e-mail must end with one of its comma-separated entries,
   * taken as they are (no trimming).
   */
  predicate AuthorizedBy(email: string, whiteList: Option<string>) {
    IsNullOrEmptyTrim(whiteList) ||
    var entries := Split(whiteList.value, ",");
    exists i :: 0 <= i < |entries| && EndsWith(email, entries[i])
  }

  /** `isAuthorizedEmail`: goes through the entries until one is a suffix of the e-mail. */
  method IsAuthorizedEmail(email: string, whiteList: Option<string>) returns (r: bool)
    ensures r == AuthorizedBy(email, whiteList)
  {
    if IsNullOrEmptyTrim(whiteList) {
      return true;
    }
    r := EndsWithSomeEntry(email, Split(whiteList.value, ","));
  }

  /** The loop of `isAuthorizedEmail`: whether the e-mail ends with one of the entries. */
  method EndsWithSomeEntry(email: string, entries: seq<string>) returns (r: bool)
    ensures r <==> exists i :: 0 <= i < |entries| && EndsWith(email, entries[i])
  {
    var i := 0;
    while i < |entries|
      invariant 0 <= i <= |entries|
      invariant forall j :: 0 <= j < i ==> !EndsWith(email, entries[j])
    {
      if EndsWith(email, entries[i]) {
        return true;
      }
      i := i + 1;
    }
    return false;
  }

  /** With one entry, an e-mail is authorized exactly when it ends with it. */
  lemma AuthorizedBySingleEntry(email: string, entry: string)
    requires ',' !in entry && !IsBlank(entry)
    ensures AuthorizedBy(email, Some(entry)) <==> EndsWith(email, entry)
  {
    TrimBlank(entry);
    NoCharNoContains(entry, ',');
    var entries := Split(entry, ",");
    assert entries == [entry];
    if EndsWith(email, entry) {
      assert EndsWith(email, entries[0]);
    }
  }

  /** An address at one of the listed domains is authorized. */
  lemma AuthorizedByListedDomain(name: string, whiteList: string, i: int)
    requires !IsBlank(whiteList)
    requires 0 <= i < |Split(whiteList, ",")|
    ensures AuthorizedBy(name + Split(whiteList, ",")[i], Some(whiteList))
  {
    TrimBlank(whiteList);
    var e := Split(whiteList, ",")[i];
    var email := name + e;
    assert email[|email| - |e|..] == e;
  }

  /** An empty entry (a leading comma, or two commas in a row) is a suffix of every address. */
  lemma EmptyEntryAuthorizesAll(email: string, whiteList: string)
    requires !IsBlank(whiteList)
    requires exists i :: 0 <= i < |Split(whiteList, ",")| && Split(whiteList, ",")[i] == ""
    ensures AuthorizedBy(email, Some(whiteList))
  {
    var i :| 0 <= i < |Split(whiteList, ",")| && Split(whiteList, ",")[i] == "";
    assert email[|email| - 0..] == "";
  }

  /** `matchUser`: a blank query matches everyone, any other one a part of the name, organization or e-mail. */
  predicate MatchUser(user: RegUser, q: Option<string>) {
    IsNullOrEmptyTrim(q) || Contains(user.completeName, q.value) ||
    Contains(user.organization, q.value) || Contains(user.email, q.value)
  }

  lemma ContainsTransitive(a: string, b: string, c: string)
    requires Contains(a, b) && Contains(b, c)
    ensures Contains(a, c)
  {
    var i := IndexOf(a, b);
    var j := IndexOf(b, c);
    assert a[i + j..i + j + |c|] == b[j..j + |c|];
    ContainsAt(a, c, i + j);
  }

  /** Narrowing a query never loses a user: whoever a query matches, every part of it matches too. */
  lemma MatchUserNarrowing(user: RegUser, q: string, part: string)
    requires MatchUser(user, Some(q)) && Contains(q, part)
    ensures MatchUser(user, Some(part))
  {
    if !IsNullOrEmptyTrim(Some(part)) {
      if IsNullOrEmptyTrim(Some(q)) {
        TrimBlank(q);
        TrimBlank(part);
        TrimContained(q);
        BlankPart(q, part);
      } else if Contains(user.completeName, q) {
        ContainsTransitive(user.completeName, q, part);
      } else if Contains(user.organization, q) {
        ContainsTransitive(user.organization, q, part);
      } else {
        ContainsTransitive(user.email, q, part);
      }
    }
  }

  /** A piece of a blank text is blank. */
  lemma BlankPart(s: string, part: string)
    requires IsBlank(s) && Contains(s, part)
    ensures IsBlank(part)
  {
    var i := IndexOf(s, part);
    forall j | 0 <= j < |part| ensures IsSpace(part[j]) {
      assert part[j] == s[i + j];
    }
  }

  // ---------------------------------------------------------------------
  // The controller

  class RegistrationBusinessController {
    /** The "registrationStore" key-value store. */
    var store: Store

    predicate Valid()
      reads this
    {
      WellKeyed(store)
    }

    constructor()
      ensures Valid() && store == map[]
    {
      store := map[];
    }

    /** `retrieveByToken`. */
    method RetrieveByToken(token: string) returns (r: Result<Registration, Error>)
      ensures r == ByToken(store, token)
    {
      var keys := set k | k in store && StartsWith(k, token + ":");
      if |keys| == 1 {
        var k :| k in keys;
        assert keys == {k} by {
          forall y | y in keys ensures y == k { SingletonMember(keys, k, y); }
        }
        r := Success(store[k]);
      } else {
        r := Failure(NotFound);
      }
    }

    /** `retrieveByEmail`. */
    method RetrieveByEmail(email: string) returns (r: Result<Registration, Error>)
      ensures r == ByEmail(store, email)
    {
      var keys := set k | k in store && EndsWith(k, ":" + email);
      if |keys| == 1 {
        var k :| k in keys;
        assert keys == {k} by {
          forall y | y in keys ensures y == k { SingletonMember(keys, k, y); }
        }
        r := Success(store[k]);
      } else {
        r := Failure(NotFound);
      }
    }

    /** `delete`: removes the entry under the registration's key. */
    method Delete(registration: Registration)
      requires Valid()
      modifies this
      ensures Valid()
      ensures store == old(store) - {Key(registration)}
    {
      store := store - {Key(registration)};
    }

    /** `deleteExpiredRegistration`: goes through all registrations and deletes the expired ones. */
    method DeleteExpiredRegistration(now: int, expiryDays: int)
      requires Valid()
      modifies this
      ensures Valid()
      ensures store == Unexpired(old(store), now, expiryDays)
    {
      ghost var original := store;
      var todo := store.Keys;
      while todo != {}
        invariant Valid() && todo <= original.Keys
        invariant store == map k | k in original && (k in todo || !Expired(original[k], now, expiryDays)) :: original[k]
        decreases |todo|
      {
        var k :| k in todo;
        var registration := store[k];
        if Expired(registration, now, expiryDays) {
          Delete(registration);
        }
        todo := todo - {k};
      }
    }

    /** `removeAll`: deletes every registration. */
    method RemoveAll()
      requires Valid()
      modifies this
      ensures Valid() && store == map[]
    {
      var todo := store.Keys;
      while todo != {}
        invariant Valid() && store.Keys == todo
        decreases |todo|
      {
        var k :| k in todo;
        Delete(store[k]);
        todo := todo - {k};
      }
    }

    /**
     * `register`: a registration under a new token. `valid` is the
     * validator's verdict on the user, `accounts` the e-mails of the
     * existing accounts. The expired registrations are removed first,
     * then a pending registration for the e-mail and then an existing
     * account make it fail.
     */
    method Register(registration: Registration, valid: bool, accounts: set<string>, now: int, expiryDays: int)
      returns (r: Result<Registration, Error>)
      requires Valid()
      modifies this
      ensures Valid()
      ensures !valid ==> r == Failure(Invalid) && store == old(store)
      ensures valid ==>
        var s := Unexpired(old(store), now, expiryDays);
        var email := registration.user.email;
        if ByEmail(s, email).Success? then r == Failure(Unprocessable) && store == s
        else if email in accounts then r == Failure(AlreadyExists) && store == s
        else r == Success(registration) && store == s[Key(registration) := registration]
    {
      if !valid {
        return Failure(Invalid);
      }
      DeleteExpiredRegistration(now, expiryDays);
      var pending := RetrieveByEmail(registration.user.email);
      if pending.Success? {
        return Failure(Unprocessable);
      }
      if registration.user.email in accounts {
        return Failure(AlreadyExists);
      }
      store := store[Key(registration) := registration];
      r := Success(registration);
    }

    /**
     * `activate`: an expired registration is refused; otherwise the account
     * is of the default type when the whitelist authorizes the e-mail, else
     * restricted. `createFails` is the error the user writer's `create`
     * (its security check and validation) throws for the user and that
     * type, `None` when the user is created. Only after a creation is the
     * registration deleted; a failed creation propagates and keeps it.
     */
    method Activate(registration: Registration, now: int, expiryDays: int, whiteList: Option<string>,
                    createFails: UserType -> Option<Error>)
      returns (r: Result<(RegUser, UserType), Error>)
      requires Valid()
      modifies this
      ensures Valid()
      ensures Expired(registration, now, expiryDays) ==> r == Failure(Unprocessable) && store == old(store)
      ensures !Expired(registration, now, expiryDays) ==>
        var userType := if AuthorizedBy(registration.user.email, whiteList) then DefaultUser else Restricted;
        match createFails(userType)
        case Some(e) => r == Failure(e) && store == old(store)
        case None =>
          r == Success((registration.user, userType)) && store == old(store) - {Key(registration)}
    {
      if Expired(registration, now, expiryDays) {
        return Failure(Unprocessable);
      }
      var authorized := IsAuthorizedEmail(registration.user.email, whiteList);
      var userType := if authorized then DefaultUser else Restricted;
      var created := createFails(userType);
      if created.Some? {
        return Failure(created.value);
      }
      Delete(registration);
      r := Success((registration.user, userType));
    }

    /** `searchInactiveUsers`: the users of the pending registrations the query matches. */
    method SearchInactiveUsers(q: Option<string>) returns (users: seq<RegUser>)
      ensures forall i :: 0 <= i < |users| ==> MatchUser(users[i], q)
      ensures forall k :: k in store && MatchUser(store[k].user, q) ==> store[k].user in users
      ensures forall i :: 0 <= i < |users| ==> exists k :: k in store && store[k].user == users[i]
    {
      users := [];
      var todo := store.Keys;
      while todo != {}
        invariant todo <= store.Keys
        invariant forall i :: 0 <= i < |users| ==> MatchUser(users[i], q)
        invariant forall k :: k in store && k !in todo && MatchUser(store[k].user, q) ==> store[k].user in users
        invariant forall i :: 0 <= i < |users| ==> exists k :: k in store && store[k].user == users[i]
        decreases |todo|
      {
        var k :| k in todo;
        if MatchUser(store[k].user, q) {
          users := users + [store[k].user];
        }
        todo := todo - {k};
      }
    }
  }
}
