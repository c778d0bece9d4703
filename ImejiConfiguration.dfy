// The instance configuration (de.mpg.imeji.logic.config.ImejiConfiguration):
// a property map from configuration names to strings, filled with default
// values where a value is missing or empty, getters that fall back to
// defaults, and the protected password fields of the administration page.
// Reading and writing conf.xml is not modelled.
module ImejiConfiguration {
  import opened Wrappers
  import opened JavaStrings

  /** The configuration names (the `CONFIGURATION` enumeration) this model reads or writes. */
  datatype ConfigKey =
    | FileTypesKey | UploadBlackListKey | LanguagesKey | BrowseDefaultViewKey | DefaultQuotaKey
    | QuotaLimitsKey | HelpUrlKey | TechnicalMetadataKey | ThumbnailWidthKey | WebResolutionWidthKey
    | NumberOfLinesKey | GoogleMapsApiKey | ConeAuthorsKey | MaxFileSizeKey | RegistrationTokenExpiryKey
    | DataViewerFormatsKey | EmailServerPasswordKey | DoiPasswordKey

  /** The `Properties` object: a name that is absent reads as null. */
  type Config = map<ConfigKey, string>

  /** `BROWSE_VIEW`. */
  datatype BrowseView = List | Thumbnail

  // Default values (the long file-type and blacklist defaults are parameters)
  const DefaultLanguageList: string := "en,de,ja,es"
  const DefaultRegistrationTokenExpiration: string := "1"
  const DefaultUserQuota: string := "1"
  const DefaultUserQuotaList: string := "1, 10, 20"
  const QuotaUnlimited: string := "unlimited"
  const DefaultHelpUrl: string := "https://raw.githubusercontent.com/imeji-community/imeji-help/master/imeji-help-default.html"
  const DefaultTechnicalMetadata: string := "Make,Model,Exposure Time,Date/Time Digitized,Color Space,Artist,Model"
  const DefaultThumbnailWidth: string := "103"
  const DefaultPreviewWidth: string := "357"
  const DefaultNumberOfLinesInThumbnailList: string := "1,2,3,4,10,15,40"
  const DefaultGoogleMapsApi: string := "https://maps.googleapis.com/maps/api/geocode/json?sensor=false&address="
  const DefaultConeAuthors: string := "http://pubman.mpdl.mpg.de/cone/persons/query?format=json&n=10&m=full&q="
  const PredefinedBrowseView: string := "THUMBNAIL"

  function BrowseViewName(v: BrowseView): string {
    match v
    case List => "LIST"
    case Thumbnail => "THUMBNAIL"
  }

  /** `BROWSE_VIEW.valueOf`: the view with that exact name, `None` for the IllegalArgumentException. */
  function BrowseViewOf(s: string): (r: Option<BrowseView>)
    ensures r.Some? <==> s == "LIST" || s == "THUMBNAIL"
    ensures r.Some? ==> BrowseViewName(r.value) == s
  {
    if s == "LIST" then Some(List) else if s == "THUMBNAIL" then Some(Thumbnail) else None
  }

  lemma BrowseViewRoundTrip(v: BrowseView)
    ensures BrowseViewOf(BrowseViewName(v)) == Some(v)
  {
    assert "LIST" != "THUMBNAIL" by { assert "LIST"[0] != "THUMBNAIL"[0]; }
  }

  /** The value `initPropertyWithDefaultValue` leaves: a non-empty current value, else the default. */
  function Defaulted(config: Config, key: ConfigKey, default: string): string {
    if key in config && config[key] != "" then config[key] else default
  }

  /** The position of each name in the sequence of `initPropertyWithDefaultValue` calls; 13 for the names not filled. */
  function KeyIndex(key: ConfigKey): (r: nat)
    ensures r <= 13
  {
    match key
    case FileTypesKey => 0
    case UploadBlackListKey => 1
    case LanguagesKey => 2
    case BrowseDefaultViewKey => 3
    case DefaultQuotaKey => 4
    case QuotaLimitsKey => 5
    case HelpUrlKey => 6
    case TechnicalMetadataKey => 7
    case ThumbnailWidthKey => 8
    case WebResolutionWidthKey => 9
    case NumberOfLinesKey => 10
    case GoogleMapsApiKey => 11
    case ConeAuthorsKey => 12
    case _ => 13
  }

  /** The configuration after `initPropertyWithDefaultValue(key, default)`. */
  function WithDefault(config: Config, key: ConfigKey, default: string): (r: Config)
    ensures key in r && r[key] == Defaulted(config, key, default)
  {
    config[key := Defaulted(config, key, default)]
  }

  predicate SameAt(before: Config, after: Config, k: ConfigKey) {
    (k in after <==> k in before) && (k in before ==> after[k] == before[k])
  }

  /** The default `initPropertiesWithDefaultValue` gives each name it fills; `None` for the names it leaves alone. */
  function InitDefault(key: ConfigKey, fileTypes: string, blackList: string): (r: Option<string>)
    ensures r.Some? <==> KeyIndex(key) < 13
  {
    match key
    case FileTypesKey => Some(fileTypes)
    case UploadBlackListKey => Some(blackList)
    case LanguagesKey => Some(DefaultLanguageList)
    case BrowseDefaultViewKey => Some(PredefinedBrowseView)
    case DefaultQuotaKey => Some(DefaultUserQuota)
    case QuotaLimitsKey => Some(DefaultUserQuotaList)
    case HelpUrlKey => Some(DefaultHelpUrl)
    case TechnicalMetadataKey => Some(DefaultTechnicalMetadata)
    case ThumbnailWidthKey => Some(DefaultThumbnailWidth)
    case WebResolutionWidthKey => Some(DefaultPreviewWidth)
    case NumberOfLinesKey => Some(DefaultNumberOfLinesInThumbnailList)
    case GoogleMapsApiKey => Some(DefaultGoogleMapsApi)
    case ConeAuthorsKey => Some(DefaultConeAuthors)
    case _ => None
  }

  /** After the defaults are filled in: names with a default hold their defaulted value, all others are untouched. */
  predicate DefaultsFilled(before: Config, after: Config, fileTypes: string, blackList: string) {
    forall k: ConfigKey :: match InitDefault(k, fileTypes, blackList)
      case Some(d) => k in after && after[k] == Defaulted(before, k, d)
      case None => (k in after <==> k in before) && (k in before ==> after[k] == before[k])
  }

  /** The first `n` calls are done: those names are defaulted, all others are as they were. */
  ghost predicate FilledUpTo(before: Config, after: Config, n: nat, fileTypes: string, blackList: string) {
    forall k: ConfigKey :: if KeyIndex(k) < n && InitDefault(k, fileTypes, blackList).Some?
      then k in after && after[k] == Defaulted(before, k, InitDefault(k, fileTypes, blackList).value)
      else SameAt(before, after, k)
  }

  /** One more call keeps the first calls' names and defaults the next one. */
  lemma FillStep(before: Config, c: Config, c': Config, key: ConfigKey, d: string, n: nat, m: nat, fileTypes: string, blackList: string)
    requires FilledUpTo(before, c, n, fileTypes, blackList)
    requires KeyIndex(key) == n && m == n + 1 && InitDefault(key, fileTypes, blackList) == Some(d)
    requires c' == WithDefault(c, key, d)
    ensures FilledUpTo(before, c', m, fileTypes, blackList)
  {
    forall k: ConfigKey ensures if KeyIndex(k) < n + 1 && InitDefault(k, fileTypes, blackList).Some?
      then k in c' && c'[k] == Defaulted(before, k, InitDefault(k, fileTypes, blackList).value)
      else SameAt(before, c', k)
    {
      if k == key {
        assert SameAt(before, c, key);
      } else {
        assert KeyIndex(k) != n || InitDefault(k, fileTypes, blackList).None? by {
          if KeyIndex(k) == n && InitDefault(k, fileTypes, blackList).Some? {
            match k
            case FileTypesKey =>
            case UploadBlackListKey =>
            case LanguagesKey =>
            case BrowseDefaultViewKey =>
            case DefaultQuotaKey =>
            case QuotaLimitsKey =>
            case HelpUrlKey =>
            case TechnicalMetadataKey =>
            case ThumbnailWidthKey =>
            case WebResolutionWidthKey =>
            case NumberOfLinesKey =>
            case GoogleMapsApiKey =>
            case ConeAuthorsKey =>
          }
        }
      }
    }
  }

  /** The names `initPropertiesWithDefaultValue` fills, in the order of its calls. */
  const DefaultedKeys: seq<ConfigKey> := [FileTypesKey, UploadBlackListKey, LanguagesKey, BrowseDefaultViewKey,
    DefaultQuotaKey, QuotaLimitsKey, HelpUrlKey, TechnicalMetadataKey, ThumbnailWidthKey, WebResolutionWidthKey,
    NumberOfLinesKey, GoogleMapsApiKey, ConeAuthorsKey]

  lemma DefaultedKeysIndex(n: nat)
    requires n < 13
    ensures |DefaultedKeys| == 13 && KeyIndex(DefaultedKeys[n]) == n
  {
  }

  lemma FilledAll(before: Config, after: Config, fileTypes: string, blackList: string)
    requires FilledUpTo(before, after, 13, fileTypes, blackList)
    ensures DefaultsFilled(before, after, fileTypes, blackList)
  {
    forall k: ConfigKey ensures match InitDefault(k, fileTypes, blackList)
      case Some(d) => k in after && after[k] == Defaulted(before, k, d)
      case None => (k in after <==> k in before) && (k in before ==> after[k] == before[k])
    {
      match k
      case MaxFileSizeKey =>
      case RegistrationTokenExpiryKey =>
      case DataViewerFormatsKey =>
      case EmailServerPasswordKey =>
      case DoiPasswordKey =>
      case _ => assert KeyIndex(k) < 13;
    }
  }

  /** Filling in the defaults leaves no defaulted name empty, and a second fill changes nothing. */
  lemma DefaultsFilledIdempotent(c0: Config, c1: Config, c2: Config, fileTypes: string, blackList: string)
    requires fileTypes != "" && blackList != ""
    requires DefaultsFilled(c0, c1, fileTypes, blackList) && DefaultsFilled(c1, c2, fileTypes, blackList)
    ensures forall k :: InitDefault(k, fileTypes, blackList).Some? ==> k in c1 && c1[k] != ""
    ensures c2 == c1
  {
    forall k | InitDefault(k, fileTypes, blackList).Some?
      ensures k in c1 && c1[k] != "" && k in c2 && c2[k] == c1[k]
    {
      var d := InitDefault(k, fileTypes, blackList).value;
      assert d != "" by {
        match k
        case LanguagesKey => assert d[0] == 'e';
        case BrowseDefaultViewKey => assert d[0] == 'T';
        case DefaultQuotaKey => assert d[0] == '1';
        case QuotaLimitsKey => assert d[0] == '1';
        case HelpUrlKey => assert |DefaultHelpUrl| > 0;
        case TechnicalMetadataKey => assert |DefaultTechnicalMetadata| > 0;
        case ThumbnailWidthKey => assert d[0] == '1';
        case WebResolutionWidthKey => assert d[0] == '3';
        case NumberOfLinesKey => assert d[0] == '1';
        case GoogleMapsApiKey => assert |DefaultGoogleMapsApi| > 0;
        case ConeAuthorsKey => assert |DefaultConeAuthors| > 0;
        case _ =>
      }
    }
    assert c2.Keys == c1.Keys by {
      forall k | k in c1 ensures k in c2 {
        if InitDefault(k, fileTypes, blackList).None? {}
      }
      forall k | k in c2 ensures k in c1 {
        if InitDefault(k, fileTypes, blackList).None? {}
      }
    }
    forall k | k in c1 ensures c2[k] == c1[k] {
      if InitDefault(k, fileTypes, blackList).None? {}
    }
  }

  /** `getQuotaLimitsAsList`: the stored limits (the text "null" when unset), then "unlimited", split at commas. */
  function QuotaLimitsAsList(config: Config): (r: seq<string>)
    ensures |r| > 0 && r[|r| - 1] == QuotaUnlimited
  {
    var stored := if QuotaLimitsKey in config then config[QuotaLimitsKey] else "null";
    assert ',' !in QuotaUnlimited by { assert QuotaUnlimited == "unlimited"; }
    SplitEndsWith(stored, ',', QuotaUnlimited);
    Split(stored + [','] + QuotaUnlimited, ",")
  }

  /** The stored limits come first: a single limit without a comma is listed before "unlimited". */
  lemma QuotaLimitsSingle(config: Config)
    requires QuotaLimitsKey in config && config[QuotaLimitsKey] != "" && ',' !in config[QuotaLimitsKey]
    ensures QuotaLimitsAsList(config) == [config[QuotaLimitsKey], QuotaUnlimited]
  {
    assert ',' !in QuotaUnlimited by { assert QuotaUnlimited == "unlimited"; }
    SplitOnce(config[QuotaLimitsKey], ',', QuotaUnlimited);
  }

  /** `getLanguagesAsList` on the stored list: nothing for "", else the comma-separated entries in order. */
  function LanguagesAsList(languages: string): (r: seq<string>)
    ensures languages == "" ==> r == []
    ensures languages != "" && ',' !in languages ==> r == [languages]
  {
    if languages == "" then []
    else
      assert ',' !in languages ==> !Contains(languages, ",") by {
        if ',' !in languages { NoCharNoContains(languages, ','); }
      }
      Split(languages, ",")
  }

  /** Without a trailing comma the entries join back to the stored text, and none of them holds a comma. */
  lemma LanguagesRoundTrip(languages: string)
    requires languages != "" && !EndsWith(languages, ",")
    ensures Join(LanguagesAsList(languages), ",") == languages
    ensures forall x :: x in LanguagesAsList(languages) ==> ',' !in x
  {
    FieldsLastEmpty(languages, ',');
    FieldsNoSeparator(languages, ',');
    JoinFields(languages, ",");
    var f := Fields(languages, ",");
    assert f[|f| - 1] != "";
    if Contains(languages, ",") {
      assert DropTrailingEmpty(f) == f;
    }
  }

  /** No field holds the separator. */
  lemma {:induction false} FieldsNoSeparator(s: string, c: char)
    ensures forall x :: x in Fields(s, [c]) ==> c !in x
    decreases |s|
  {
    if Contains(s, [c]) {
      var i := IndexOf(s, [c]);
      FieldsStep(s, [c]);
      FieldsNoSeparator(s[i + 1..], c);
      forall j | 0 <= j < i ensures s[..i][j] != c {
        IndexOfFirst(s, [c], j);
        assert s[j..j + 1] == [s[j]];
      }
    } else {
      if c in s {
        var j :| 0 <= j < |s| && s[j] == c;
        assert OccursAt(s, [c], j) by { assert s[j..j + 1] == [c]; }
        ContainsAt(s, [c], j);
      }
    }
  }

  /** The stored value of a name as the Java `String` it reads as: `None` for null. */
  function Get(config: Config, key: ConfigKey): (r: Option<string>)
    ensures r.Some? <==> key in config
    ensures r.Some? ==> r.value == config[key]
  {
    if key in config then Some(config[key]) else None
  }

  /** `registrationTokenCompute`: the stored expiry unless it is null or blank, else one day. */
  function TokenExpiry(config: Config): (r: string)
    ensures IsNullOrEmptyTrim(Get(config, RegistrationTokenExpiryKey)) ==> r == DefaultRegistrationTokenExpiration
    ensures !IsNullOrEmptyTrim(Get(config, RegistrationTokenExpiryKey)) ==> r == config[RegistrationTokenExpiryKey]
  {
    var v := Get(config, RegistrationTokenExpiryKey);
    if IsNullOrEmptyTrim(v) then DefaultRegistrationTokenExpiration else v.value
  }

  /** The value `setRegistrationTokenExpiry` stores: the argument when it is an integer, else one day. */
  function ExpiryToStore(s: Option<string>): (r: string)
    ensures s.Some? && ParseInt(s.value).Some? ==> r == s.value
    ensures s.None? || ParseInt(s.value).None? ==> r == DefaultRegistrationTokenExpiration
  {
    if s.Some? && ParseInt(s.value).Some? then s.value else DefaultRegistrationTokenExpiration
  }

  /** An integer is never blank. */
  lemma IntegerNotBlank(s: string)
    requires ParseInt(s).Some?
    ensures Trim(s) != ""
  {
    assert |s| > 0;
    TrimBlank(s);
    assert !IsSpace(s[0]);
  }

  /**
   * Storing an expiry and reading it back: an integer reads back unchanged,
   * anything else (null included) reads back as one day.
   */
  lemma TokenExpirySetGet(config: Config, s: Option<string>)
    ensures var c := config[RegistrationTokenExpiryKey := ExpiryToStore(s)];
      (s.None? || ParseInt(s.value).None? ==> TokenExpiry(c) == DefaultRegistrationTokenExpiration) &&
      (s.Some? && ParseInt(s.value).Some? ==> TokenExpiry(c) == s.value)
  {
    if s.Some? && ParseInt(s.value).Some? {
      IntegerNotBlank(s.value);
    }
  }

  /** `isDataViewerSupportedFormats`: no format list or an empty format is unsupported; otherwise substring containment. */
  function DataViewerSupports(config: Config, format: string): (r: bool)
    ensures DataViewerFormatsKey !in config || format == "" ==> !r
    ensures DataViewerFormatsKey in config && format != "" ==> (r <==> Contains(config[DataViewerFormatsKey], format))
  {
    if DataViewerFormatsKey !in config || format == "" then false
    else Contains(config[DataViewerFormatsKey], format)
  }

  /** A listed format is supported, whatever else the list holds. */
  lemma ListedFormatSupported(config: Config, format: string, before: string, after: string)
    requires format != "" && DataViewerFormatsKey in config
    requires config[DataViewerFormatsKey] == before + format + after
    ensures DataViewerSupports(config, format)
  {
    var l := before + format + after;
    assert l[|before|..|before| + |format|] == format;
    ContainsAt(l, format, |before|);
  }

  /** `getUploadMaxFileSize`: "0" when unset or empty, else the stored text. */
  function UploadMaxFileSize(config: Config): (r: string)
    ensures MaxFileSizeKey !in config || config[MaxFileSizeKey] == "" ==> r == "0"
    ensures MaxFileSizeKey in config && config[MaxFileSizeKey] != "" ==> r == config[MaxFileSizeKey]
  {
    if MaxFileSizeKey !in config || config[MaxFileSizeKey] == "" then "0" else config[MaxFileSizeKey]
  }

  /** `getPropertyAsNonNullString`: "" for a name that is not set. */
  function NonNullProperty(config: Config, key: ConfigKey): (r: string)
    ensures key in config ==> r == config[key]
    ensures key !in config ==> r == ""
  {
    if key in config then config[key] else ""
  }

  // ---------------------------------------------------------------------
  // The configuration object

  class ImejiConfiguration {
    var config: Config
    /** `fileTypes.toString()`, the default for FILE_TYPES. */
    var fileTypes: string
    var emailServerPassword: ProtectedPassword?
    var doiPassword: ProtectedPassword?

    /** Both protected password fields exist and write through to this configuration. */
    predicate Valid()
      reads this, emailServerPassword, doiPassword
    {
      emailServerPassword != null && doiPassword != null &&
      emailServerPassword.owner == this && emailServerPassword.key == EmailServerPasswordKey &&
      doiPassword.owner == this && doiPassword.key == DoiPasswordKey
    }

    /** `readConfig` after `loaded` was read: defaults filled in, then the protected passwords built from the stored ones. */
    constructor(loaded: Config, fileTypes: string, blackList: string)
      ensures Valid() && this.fileTypes == fileTypes
      ensures DefaultsFilled(loaded, config, fileTypes, blackList)
      ensures fresh(emailServerPassword) && fresh(doiPassword)
      ensures emailServerPassword.password == Get(config, EmailServerPasswordKey) && !emailServerPassword.active
      ensures doiPassword.password == Get(config, DoiPasswordKey) && !doiPassword.active
    {
      config := loaded;
      this.fileTypes := fileTypes;
      emailServerPassword := null;
      doiPassword := null;
      new;
      InitPropertiesWithDefaultValue(blackList);
      emailServerPassword := new ProtectedPassword(this, EmailServerPasswordKey, Get(config, EmailServerPasswordKey));
      doiPassword := new ProtectedPassword(this, DoiPasswordKey, Get(config, DoiPasswordKey));
    }

    /** `initPropertyWithDefaultValue`: a non-empty current value is kept, anything else replaced by the default. */
    method InitPropertyWithDefaultValue(key: ConfigKey, default: string)
      modifies this
      ensures config == WithDefault(old(config), key, default)
      ensures fileTypes == old(fileTypes) && emailServerPassword == old(emailServerPassword) && doiPassword == old(doiPassword)
    {
      if key in config && config[key] != "" {
        config := config[key := config[key]];
      } else {
        config := config[key := default];
      }
    }

    /**
     * `initPropertiesWithDefaultValue`: the thirteen names with defaults are
     * filled in, in order, and nothing else changes. The thirteen calls are
     * written as one loop over the names in call order.
     */
    method InitPropertiesWithDefaultValue(blackList: string)
      modifies this
      ensures DefaultsFilled(old(config), config, fileTypes, blackList)
      ensures fileTypes == old(fileTypes) && emailServerPassword == old(emailServerPassword) && doiPassword == old(doiPassword)
    {
      ghost var before := config;
      assert FilledUpTo(before, config, 0, fileTypes, blackList);
      for i := 0 to 13
        invariant FilledUpTo(before, config, i, fileTypes, blackList)
        invariant fileTypes == old(fileTypes) && emailServerPassword == old(emailServerPassword) && doiPassword == old(doiPassword)
      {
        DefaultedKeysIndex(i);
        var key := DefaultedKeys[i];
        var default := InitDefault(key, fileTypes, blackList).value;
        ghost var c := config;
        InitPropertyWithDefaultValue(key, default);
        FillStep(before, c, config, key, default, i, i + 1, fileTypes, blackList);
      }
      FilledAll(before, config, fileTypes, blackList);
    }

    /** `setProperty`: `Properties.setProperty` throws a NullPointerException on a null value, reported as `npe`. */
    method SetProperty(key: ConfigKey, value: Option<string>) returns (npe: bool)
      modifies this
      ensures npe <==> value.None?
      ensures value.Some? ==> config == old(config)[key := value.value]
      ensures value.None? ==> config == old(config)
      ensures fileTypes == old(fileTypes) && emailServerPassword == old(emailServerPassword) && doiPassword == old(doiPassword)
    {
      if value.None? {
        return true;
      }
      config := config[key := value.value];
      npe := false;
    }

    /**
     * `setUploadMaxFileSize`: the argument is stored even when it is not a
     * number. A null argument is first replaced by "", and then storing it
     * throws a NullPointerException, reported as `npe`.
     */
    method SetUploadMaxFileSize(size: Option<string>) returns (npe: bool)
      modifies this
      ensures npe <==> size.None?
      ensures size.Some? ==> config == old(config)[MaxFileSizeKey := size.value]
      ensures size.Some? ==> UploadMaxFileSize(config) == if size.value == "" then "0" else size.value
      ensures size.None? ==> config == old(config)[MaxFileSizeKey := ""] && UploadMaxFileSize(config) == "0"
      ensures fileTypes == old(fileTypes) && emailServerPassword == old(emailServerPassword) && doiPassword == old(doiPassword)
    {
      if size.None? || ParseInt(size.value).None? {
        config := config[MaxFileSizeKey := ""];
      }
      if size.None? {
        return true;
      }
      config := config[MaxFileSizeKey := size.value];
      npe := false;
    }

    /** `setRegistrationTokenExpiry`: a value that is not an integer (null included) is replaced by one day. */
    method SetRegistrationTokenExpiry(s: Option<string>)
      modifies this
      ensures config == old(config)[RegistrationTokenExpiryKey := ExpiryToStore(s)]
      ensures fileTypes == old(fileTypes) && emailServerPassword == old(emailServerPassword) && doiPassword == old(doiPassword)
    {
      var v := s;
      if v.None? || ParseInt(v.value).None? {
        v := Some(DefaultRegistrationTokenExpiration);
      }
      config := config[RegistrationTokenExpiryKey := v.value];
    }

    /** `setDefaultBrowseView`: only the name of a browse view is accepted; `valueOf(null)` throws a NullPointerException. */
    method SetDefaultBrowseView(s: Option<string>) returns (r: Result<(), string>)
      modifies this
      ensures s.None? ==> r == Failure("NullPointerException") && config == old(config)
      ensures s.Some? && BrowseViewOf(s.value).Some? ==> r.Success? && config == old(config)[BrowseDefaultViewKey := s.value]
      ensures s.Some? && BrowseViewOf(s.value).None? ==> r == Failure("IllegalArgumentException") && config == old(config)
      ensures fileTypes == old(fileTypes) && emailServerPassword == old(emailServerPassword) && doiPassword == old(doiPassword)
    {
      if s.None? {
        return Failure("NullPointerException");
      }
      var v := BrowseViewOf(s.value);
      if v.None? {
        return Failure("IllegalArgumentException");
      }
      config := config[BrowseDefaultViewKey := BrowseViewName(v.value)];
      r := Success(());
    }

    /** `setFileTypes`: stores the current file types; the argument is not used. */
    method SetFileTypes(types: string)
      modifies this
      ensures config == old(config)[FileTypesKey := fileTypes]
      ensures fileTypes == old(fileTypes) && emailServerPassword == old(emailServerPassword) && doiPassword == old(doiPassword)
    {
      config := config[FileTypesKey := fileTypes];
    }

    /** `setProtectedEmailServerPassword`: stores what the protected field shows, which is always "". */
    method SetProtectedEmailServerPassword()
      requires Valid()
      modifies this
      ensures config == old(config)[EmailServerPasswordKey := ""]
      ensures fileTypes == old(fileTypes) && emailServerPassword == old(emailServerPassword) && doiPassword == old(doiPassword)
      ensures Valid()
    {
      config := config[EmailServerPasswordKey := emailServerPassword.Password()];
    }

    /** `setProtectedDoiPassword`: stores what the protected field shows, which is always "". */
    method SetProtectedDoiPassword()
      requires Valid()
      modifies this
      ensures config == old(config)[DoiPasswordKey := ""]
      ensures fileTypes == old(fileTypes) && emailServerPassword == old(emailServerPassword) && doiPassword == old(doiPassword)
      ensures Valid()
    {
      config := config[DoiPasswordKey := doiPassword.Password()];
    }
  }

  /**
   * `ProtectedPassword` with its two subclasses: a password field that
   * always shows "" and accepts a new password only while its check box is
   * active, passing it on to the configuration under its own name.
   */
  class ProtectedPassword {
    var password: Option<string>
    var active: bool
    const owner: ImejiConfiguration
    const key: ConfigKey

    constructor(owner: ImejiConfiguration, key: ConfigKey, password: Option<string>)
      ensures this.owner == owner && this.key == key && this.password == password && !active
    {
      this.owner := owner;
      this.key := key;
      this.password := password;
      active := false;
    }

    /** `getPassword`: always "". */
    function Password(): (r: string)
      ensures r == ""
    {
      ""
    }

    /** `getPasswordActive`: always false, whatever the check box holds. */
    function PasswordActive(): (r: bool)
      ensures !r
    {
      false
    }

    /** `setPassword` with `setInternalPassword`: only while active is the password changed and stored. */
    method SetPassword(p: string)
      modifies this, owner
      ensures old(active) ==> password == Some(p) && owner.config == old(owner.config)[key := p]
      ensures !old(active) ==> password == old(password) && owner.config == old(owner.config)
      ensures active == old(active)
      ensures owner.fileTypes == old(owner.fileTypes)
      ensures owner.emailServerPassword == old(owner.emailServerPassword) && owner.doiPassword == old(owner.doiPassword)
    {
      if active {
        password := Some(p);
        var npe := owner.SetProperty(key, Some(p));
      }
    }

    /** `setPasswordActive` and `activeChangedListener`: the check box state. */
    method SetPasswordActive(a: bool)
      modifies this
      ensures active == a && password == old(password)
    {
      active := a;
    }
  }

  /** A password typed while the box is unchecked is lost; after checking it, it reaches the configuration. */
  method PasswordScenario(c: ImejiConfiguration, p: string)
    requires c.Valid()
    modifies c, c.emailServerPassword
    ensures c.config == old(c.config)[EmailServerPasswordKey := p]
  {
    var field := c.emailServerPassword;
    field.SetPasswordActive(false);
    field.SetPassword(p);
    assert c.config == old(c.config);
    field.SetPasswordActive(true);
    field.SetPassword(p);
  }
}
