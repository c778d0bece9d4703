// The rules of the item service (de.mpg.imeji.logic.core.item.ItemService)
// that do not need the store: where the file of a new item comes from, the
// name it gets when it is fetched from a URL, the fields a batch creation
// sets, which items a release or a withdrawal touches, and the disk quota.
module ItemService {
  import opened Wrappers
  import opened JavaStrings
  import opened ImejiModel
  import StorageUtils

  /** The exceptions the service throws here; the comments give the source's exception class. */
  datatype Error =
    | AuthenticationError   // the user is not logged in
    | UploadedFilenameEmpty // BadRequestException: an uploaded file without a name
    | NoFileNorUrl          // BadRequestException: no file, no fetchUrl, no referenceUrl
    | NoExternalUrl         // BadRequestException: the URLs are there, but blank
    | FilenameUnknown       // BadRequestException: no name for an external file
    | ExternalUrlMissing    // BadRequestException: no URL for an external file
    | UnprocessableError    // a batch without a collection, or an unreadable disk usage
    | IndexOutOfBounds      // no disk usage found
    | QuotaExceeded         // QuotaExceededException

  // ---------------------------------------------------------------------
  // firstNonNullOrEmtpy and the external URL

  /** The first argument that is neither null nor blank once trimmed. */
  function FirstNonBlank(strs: seq<Option<string>>): (r: Option<string>)
    ensures r.Some? ==> !IsNullOrEmptyTrim(r) && r in strs
  {
    if |strs| == 0 then None
    else if !IsNullOrEmptyTrim(strs[0]) then strs[0]
    else FirstNonBlank(strs[1..])
  }

  /** Nothing is found exactly when every argument is blank. */
  lemma {:induction false} FirstNonBlankNone(strs: seq<Option<string>>)
    ensures FirstNonBlank(strs).None? <==> forall i :: 0 <= i < |strs| ==> IsNullOrEmptyTrim(strs[i])
  {
    if |strs| > 0 && IsNullOrEmptyTrim(strs[0]) {
      FirstNonBlankNone(strs[1..]);
      assert forall i :: 1 <= i < |strs| ==> strs[i] == strs[1..][i - 1];
    }
  }

  /** The argument found is the first non-blank one. */
  lemma {:induction false} FirstNonBlankFirst(strs: seq<Option<string>>, i: int)
    requires 0 <= i < |strs| && !IsNullOrEmptyTrim(strs[i])
    requires forall j :: 0 <= j < i ==> IsNullOrEmptyTrim(strs[j])
    ensures FirstNonBlank(strs) == strs[i]
  {
    if i > 0 {
      assert IsNullOrEmptyTrim(strs[0]);
      assert strs[1..][i - 1] == strs[i];
      FirstNonBlankFirst(strs[1..], i - 1);
    }
  }

  /** `firstNonNullOrEmtpy`: the arguments are tried in order; a null array gives null. */
  method FirstNonNullOrEmpty(strs: Option<seq<Option<string>>>) returns (r: Option<string>)
    ensures strs.None? ==> r.None?
    ensures strs.Some? ==> r == FirstNonBlank(strs.value)
  {
    if strs.None? {
      return None;
    }
    var s := strs.value;
    var i := 0;
    while i < |s|
      invariant 0 <= i <= |s|
      invariant FirstNonBlank(s[i..]) == FirstNonBlank(s)
    {
      if s[i].Some? && Trim(s[i].value) != "" {
        return s[i];
      }
      assert s[i..][1..] == s[i + 1..];
      i := i + 1;
    }
    return None;
  }

  /** `getExternalFileUrl`: the fetch URL when it is not blank, else the reference URL. */
  function ExternalFileUrl(fetchUrl: Option<string>, referenceUrl: Option<string>): Option<string> {
    FirstNonBlank([fetchUrl, referenceUrl])
  }

  /** The fetch URL is preferred; a blank one gives way to the reference URL. */
  lemma ExternalFileUrlPrefersFetch(fetchUrl: Option<string>, referenceUrl: Option<string>)
    ensures !IsNullOrEmptyTrim(fetchUrl) ==> ExternalFileUrl(fetchUrl, referenceUrl) == fetchUrl
    ensures IsNullOrEmptyTrim(fetchUrl) && !IsNullOrEmptyTrim(referenceUrl) ==>
      ExternalFileUrl(fetchUrl, referenceUrl) == referenceUrl
    ensures IsNullOrEmptyTrim(fetchUrl) && IsNullOrEmptyTrim(referenceUrl) ==> ExternalFileUrl(fetchUrl, referenceUrl).None?
  {
    var strs := [fetchUrl, referenceUrl];
    assert strs[1..] == [referenceUrl] && [referenceUrl][1..] == [];
    assert FirstNonBlank(strs) == if !IsNullOrEmptyTrim(fetchUrl) then fetchUrl else FirstNonBlank([referenceUrl]);
    assert FirstNonBlank([referenceUrl]) == if !IsNullOrEmptyTrim(referenceUrl) then referenceUrl else None;
  }

  /** `downloadFile` as written: a fetch URL that is not null or "" (not trimmed). */
  predicate DownloadFileAsWritten(fetchUrl: Option<string>) {
    !NullOrEmpty(fetchUrl)
  }

  /** `downloadFile` as intended: the file is downloaded exactly when the fetch URL is the one chosen. */
  predicate DownloadFile(fetchUrl: Option<string>) {
    !IsNullOrEmptyTrim(fetchUrl)
  }

  /** The corrected rule downloads exactly the fetch URL, and never the reference URL. */
  lemma DownloadFileChoosesFetch(fetchUrl: Option<string>, referenceUrl: Option<string>)
    ensures DownloadFile(fetchUrl) <==> ExternalFileUrl(fetchUrl, referenceUrl).Some? && !IsNullOrEmptyTrim(fetchUrl)
    ensures DownloadFile(fetchUrl) ==> ExternalFileUrl(fetchUrl, referenceUrl) == fetchUrl
    ensures !DownloadFile(fetchUrl) && !IsNullOrEmptyTrim(referenceUrl) ==> ExternalFileUrl(fetchUrl, referenceUrl) == referenceUrl
  {
    ExternalFileUrlPrefersFetch(fetchUrl, referenceUrl);
  }

  /** The two rules differ only on a fetch URL of blanks. */
  lemma DownloadFileAgrees(fetchUrl: Option<string>)
    ensures DownloadFileAsWritten(fetchUrl) != DownloadFile(fetchUrl) <==>
      fetchUrl.Some? && fetchUrl.value != "" && Trim(fetchUrl.value) == ""
  {
  }

  /**
   * As written, a fetch URL of one blank beside a reference URL makes the
   * reference URL the file's URL and still asks for the download, so the
   * referenced file is copied into the storage.
   */
  lemma BlankFetchDownloadsReference(referenceUrl: string)
    requires Trim(referenceUrl) != ""
    ensures ExternalFileUrl(Some(" "), Some(referenceUrl)) == Some(referenceUrl)
    ensures DownloadFileAsWritten(Some(" "))
    ensures !DownloadFile(Some(" "))
  {
    assert Trim(" ") == "" by {
      TrimBlank(" ");
    }
    ExternalFileUrlPrefersFetch(Some(" "), Some(referenceUrl));
  }

  // ---------------------------------------------------------------------
  // create(item, collection, file, filename, user, fetchUrl, referenceUrl)

  /** Where the file of the new item comes from. */
  datatype FileSource =
    | UploadedFile(uploadedName: string)
    | ExternalFile(url: string, filename: Option<string>, download: bool)

  /**
   * The checks of `create` and the branch it takes: a logged-in user, a
   * name for an uploaded file, and an uploaded file or a URL.
   */
  function CreateSource(loggedIn: bool, uploaded: bool, filename: Option<string>,
                        fetchUrl: Option<string>, referenceUrl: Option<string>): (r: Result<FileSource, Error>)
    ensures !loggedIn ==> r == Failure(AuthenticationError)
    ensures loggedIn && uploaded && NullOrEmpty(filename) ==> r == Failure(UploadedFilenameEmpty)
    ensures loggedIn && !uploaded && NullOrEmpty(fetchUrl) && NullOrEmpty(referenceUrl) ==> r == Failure(NoFileNorUrl)
    ensures r.Success? <==> (loggedIn && (uploaded ==> !NullOrEmpty(filename)) &&
      (!uploaded ==> ExternalFileUrl(fetchUrl, referenceUrl).Some?))
    ensures r.Success? && uploaded ==> r.value == UploadedFile(filename.value)
    ensures r.Success? && !uploaded ==> (r.value.ExternalFile? &&
      Some(r.value.url) == ExternalFileUrl(fetchUrl, referenceUrl) && r.value.download == DownloadFile(fetchUrl))
  {
    if !loggedIn then Failure(AuthenticationError)
    else if uploaded && NullOrEmpty(filename) then Failure(UploadedFilenameEmpty)
    else if !uploaded && NullOrEmpty(fetchUrl) && NullOrEmpty(referenceUrl) then Failure(NoFileNorUrl)
    else if uploaded then Success(UploadedFile(filename.value))
    else
      match ExternalFileUrl(fetchUrl, referenceUrl)
      case Some(url) => Success(ExternalFile(url, filename, DownloadFile(fetchUrl)))
      case None => Failure(NoExternalUrl)
  }

  /** URLs that are there but blank pass the first check and fail the last one. */
  lemma CreateBlankUrls(filename: Option<string>)
    ensures CreateSource(true, false, filename, Some(" "), None) == Failure(NoExternalUrl)
  {
    assert Trim(" ") == "" by {
      TrimBlank(" ");
    }
    ExternalFileUrlPrefersFetch(Some(" "), None);
  }

  // ---------------------------------------------------------------------
  // createWithExternalFile: the file name

  /** `getExtension` of a value that may be null (null itself). */
  function ExtensionOf(name: Option<string>): Option<string> {
    match name
    case None => None
    case Some(n) => Some(StorageUtils.Extension(n))
  }

  /** The given name with the extension of the URL's file name made sure of; that name when none is given. */
  function NameWithUrlExtension(filename: Option<string>, origName: Option<string>): Option<string> {
    if filename.None? || filename.value == "" then origName
    else if StorageUtils.Extension(filename.value) == "" ||
            Some(StorageUtils.Extension(filename.value)) != ExtensionOf(origName) then
      Some(filename.value + "." + ExtensionOf(origName).GetOr("null"))
    else filename
  }

  /**
   * The name of a file fetched from a URL: the URL's file name when none is
   * given; otherwise the given one, with "." and the URL's extension added
   * unless it already ends with that same, non-empty extension (a missing
   * extension is concatenated as "null"). A name that is still missing or
   * empty, and then a missing URL, are rejected.
   */
  function ExternalFileName(filename: Option<string>, externalFileUrl: Option<string>): (r: Result<string, Error>)
    ensures r.Success? ==> r.value != "" && externalFileUrl.Some? && externalFileUrl.value != ""
  {
    var origName := if externalFileUrl.None? then None else Some(StorageUtils.GetName(externalFileUrl.value));
    var name := NameWithUrlExtension(filename, origName);
    if name.None? || name.value == "" then Failure(FilenameUnknown)
    else if externalFileUrl.None? || externalFileUrl.value == "" then Failure(ExternalUrlMissing)
    else Success(name.value)
  }

  /**
   * For a URL: without a given name the file takes the URL's file name;
   * a given name is kept as its start and the result always carries the
   * URL's extension; a name that already has it is left alone.
   */
  lemma ExternalFileNameSpec(filename: Option<string>, url: string)
    requires url != ""
    ensures NullOrEmpty(filename) ==>
      ExternalFileName(filename, Some(url)) ==
        (if StorageUtils.GetName(url) == "" then Failure(FilenameUnknown) else Success(StorageUtils.GetName(url)))
    ensures !NullOrEmpty(filename) ==>
      var r := ExternalFileName(filename, Some(url));
      r.Success? && StartsWith(r.value, filename.value) &&
      StorageUtils.Extension(r.value) == StorageUtils.Extension(StorageUtils.GetName(url))
    ensures (!NullOrEmpty(filename) && StorageUtils.Extension(filename.value) != "" &&
      StorageUtils.Extension(filename.value) == StorageUtils.Extension(StorageUtils.GetName(url))) ==>
      ExternalFileName(filename, Some(url)) == Success(filename.value)
  {
    if !NullOrEmpty(filename) {
      GivenNameKeepsUrlExtension(filename.value, StorageUtils.GetName(url));
    }
  }

  /** A given name is the start of the name used, which carries the extension of the URL's file name. */
  lemma GivenNameKeepsUrlExtension(f: string, n: string)
    requires f != ""
    ensures var m := NameWithUrlExtension(Some(f), Some(n));
      m.Some? && m.value != "" && StartsWith(m.value, f) &&
      StorageUtils.Extension(m.value) == StorageUtils.Extension(n)
  {
    var e := StorageUtils.Extension(n);
    if StorageUtils.Extension(f) == "" || StorageUtils.Extension(f) != e {
      StorageUtils.ExtensionPlain(n);
      StorageUtils.ExtensionOfAppended(f, e);
      assert (f + "." + e)[..|f|] == f;
    }
  }

  // ---------------------------------------------------------------------
  // Items in memory: create(items, collection), release, withdraw

  /** The fields of an item these operations set; `license` is its active licence. */
  class ItemRecord {
    var status: Status
    var collection: Option<string>
    var license: Option<string>
    var discardComment: Option<string>

    constructor(status: Status, collection: Option<string>, license: Option<string>)
      ensures this.status == status && this.collection == collection && this.license == license
      ensures discardComment.None?
    {
      this.status := status;
      this.collection := collection;
      this.license := license;
      discardComment := None;
    }
  }

  /** A collection as a batch creation sees it: its status and its id. */
  datatype CollectionRef = CollectionRef(status: Status, id: Option<string>)

  /**
   * `create(items, collection)`: without a collection or its id nothing
   * happens but the error; otherwise every item takes the collection's
   * status and id (the batch is then written to the store).
   */
  method CreateBatch(items: seq<ItemRecord>, col: Option<CollectionRef>) returns (r: Result<(), Error>)
    modifies set i | 0 <= i < |items| :: items[i]
    ensures col.None? || col.value.id.None? ==> r == Failure(UnprocessableError)
    ensures col.Some? && col.value.id.Some? ==> r.Success?
    ensures r.Success? ==> forall i :: 0 <= i < |items| ==>
      items[i].status == col.value.status && items[i].collection == col.value.id
    ensures r.Failure? ==> forall i :: 0 <= i < |items| ==>
      items[i].status == old(items[i].status) && items[i].collection == old(items[i].collection)
    ensures forall i :: 0 <= i < |items| ==>
      items[i].license == old(items[i].license) && items[i].discardComment == old(items[i].discardComment)
  {
    if col.None? || col.value.id.None? {
      return Failure(UnprocessableError);
    }
    var k := 0;
    while k < |items|
      invariant 0 <= k <= |items|
      invariant forall i :: 0 <= i < k ==> items[i].status == col.value.status && items[i].collection == col.value.id
      invariant forall i :: 0 <= i < |items| ==>
        items[i].license == old(items[i].license) && items[i].discardComment == old(items[i].discardComment)
    {
      items[k].status := col.value.status;
      items[k].collection := col.value.id;
      k := k + 1;
    }
    return Success(());
  }

  /** `filterItemsByStatus`: the items with that status, in their order. */
  function FilterItemsByStatus(items: seq<ItemRecord>, status: Status): (r: seq<ItemRecord>)
    reads set i | 0 <= i < |items| :: items[i]
    ensures |r| <= |items|
    ensures forall i :: 0 <= i < |r| ==> r[i] in items && r[i].status == status
    ensures forall i :: 0 <= i < |items| && items[i].status == status ==> items[i] in r
  {
    if |items| == 0 then []
    else (if items[0].status == status then [items[0]] else []) + FilterItemsByStatus(items[1..], status)
  }

  /** Filtering a list that was put together is filtering each part: the order of the items is kept. */
  lemma {:induction false} FilterItemsByStatusAppend(a: seq<ItemRecord>, b: seq<ItemRecord>, status: Status)
    ensures FilterItemsByStatus(a + b, status) == FilterItemsByStatus(a, status) + FilterItemsByStatus(b, status)
  {
    if |a| > 0 {
      assert (a + b)[1..] == a[1..] + b;
      FilterItemsByStatusAppend(a[1..], b, status);
    } else {
      assert a + b == b;
    }
  }

  /** The licence a released item ends with: its own, else the default one. */
  function ReleasedLicense(license: Option<string>, defaultLicense: Option<string>): (r: Option<string>)
    ensures license.Some? ==> r == license
    ensures license.None? ==> r == defaultLicense
  {
    if defaultLicense.Some? && license.None? then defaultLicense else license
  }

  /**
   * `release`: the pending items among those given are released and get
   * the default licence when they have none; the others are untouched
   * (the batch is then written to the store).
   */
  method Release(items: seq<ItemRecord>, defaultLicense: Option<string>)
    modifies set i | 0 <= i < |items| :: items[i]
    ensures forall x :: x in items && old(x.status) == Pending ==>
      x.status == Released && x.license == ReleasedLicense(old(x.license), defaultLicense)
    ensures forall x :: x in items && old(x.status) != Pending ==>
      x.status == old(x.status) && x.license == old(x.license)
    ensures forall x :: x in items ==> x.collection == old(x.collection) && x.discardComment == old(x.discardComment)
  {
    var filtered := FilterItemsByStatus(items, Pending);
    var k := 0;
    ghost var done: set<ItemRecord> := {};
    while k < |filtered|
      invariant 0 <= k <= |filtered|
      invariant forall j :: 0 <= j < |filtered| ==> filtered[j] in items && old(filtered[j].status) == Pending
      invariant forall j :: 0 <= j < k ==> filtered[j] in done
      invariant forall x :: x in done ==> x in items && old(x.status) == Pending
      invariant forall x :: x in done ==>
        x.status == Released && x.license == ReleasedLicense(old(x.license), defaultLicense)
      invariant forall x :: x in items && x !in done ==> x.status == old(x.status) && x.license == old(x.license)
      invariant forall x :: x in items ==> x.collection == old(x.collection) && x.discardComment == old(x.discardComment)
    {
      var item := filtered[k];
      item.status := Released;
      if defaultLicense.Some? && item.license.None? {
        item.license := defaultLicense;
      }
      done := done + {item};
      k := k + 1;
    }
  }

  /** The discard comment a withdrawn item ends with: the new comment when there is one, else its own. */
  function WithdrawnComment(discardComment: Option<string>, comment: Option<string>): (r: Option<string>)
    ensures NullOrEmpty(comment) ==> r == discardComment
    ensures !NullOrEmpty(comment) ==> r == comment
  {
    if comment != None && comment.value != "" then comment else discardComment
  }

  /**
   * `withdraw`: the released items among those given are withdrawn, with
   * the comment when it is neither null nor empty; the others are
   * untouched (their files are then removed from the storage).
   */
  method Withdraw(items: seq<ItemRecord>, comment: Option<string>)
    modifies set i | 0 <= i < |items| :: items[i]
    ensures forall x :: x in items && old(x.status) == Released ==>
      x.status == Withdrawn && x.discardComment == WithdrawnComment(old(x.discardComment), comment)
    ensures forall x :: x in items && old(x.status) != Released ==>
      x.status == old(x.status) && x.discardComment == old(x.discardComment)
    ensures forall x :: x in items ==> x.collection == old(x.collection) && x.license == old(x.license)
  {
    var filtered := FilterItemsByStatus(items, Released);
    var k := 0;
    ghost var done: set<ItemRecord> := {};
    while k < |filtered|
      invariant 0 <= k <= |filtered|
      invariant forall j :: 0 <= j < |filtered| ==> filtered[j] in items && old(filtered[j].status) == Released
      invariant forall j :: 0 <= j < k ==> filtered[j] in done
      invariant forall x :: x in done ==> x in items && old(x.status) == Released
      invariant forall x :: x in done ==>
        x.status == Withdrawn && x.discardComment == WithdrawnComment(old(x.discardComment), comment)
      invariant forall x :: x in items && x !in done ==>
        x.status == old(x.status) && x.discardComment == old(x.discardComment)
      invariant forall x :: x in items ==> x.collection == old(x.collection) && x.license == old(x.license)
    {
      var item := filtered[k];
      if !NullOrEmpty(comment) {
        item.discardComment := comment;
      }
      item.status := Withdrawn;
      done := done + {item};
      k := k + 1;
    }
  }

  // ---------------------------------------------------------------------
  // checkQuota

  /** A Java `long` result: the value modulo 2^64, in the signed range. */
  function ToLong(x: int): (r: int)
    ensures LongMin <= r <= LongMax
    ensures LongMin <= x <= LongMax ==> r == x
  {
    (x - LongMin) % 0x1_0000_0000_0000_0000 + LongMin
  }

  /** The disk space left after a file of `size` bytes joins `usage` bytes, or the quota's error. */
  function QuotaRemaining(usage: int, size: int, quota: int): (r: Result<int, Error>)
    ensures var needed := ToLong(usage + size);
      (r.Failure? <==> needed > quota) && (r.Failure? ==> r.error == QuotaExceeded)
    ensures LongMin <= usage + size <= LongMax && LongMin <= quota - (usage + size) <= LongMax && r.Success? ==>
      r.value == quota - (usage + size) && r.value >= 0
  {
    var needed := ToLong(usage + size);
    if needed > quota then Failure(QuotaExceeded) else Success(ToLong(quota - needed))
  }

  /**
   * Files uploaded one after the other: once a first file has fit, a
   * second fits exactly when it is no larger than what the first left.
   */
  lemma QuotaSequential(usage: nat, a: nat, b: nat, quota: int)
    requires usage + a + b <= LongMax && quota <= LongMax
    requires QuotaRemaining(usage, a, quota).Success?
    ensures QuotaRemaining(usage + a, b, quota).Success? <==> b <= QuotaRemaining(usage, a, quota).value
  {
  }

  /**
   * `checkQuota`: the uploading user's disk usage is the first search
   * result, read as a `long`; then usage and file must fit into the quota of
   * the collection's creator (`quota`).
   */
  function CheckQuota(results: seq<string>, fileLength: int, quota: int): (r: Result<int, Error>)
    ensures |results| == 0 ==> r == Failure(IndexOutOfBounds)
    ensures |results| > 0 && ParseLong(results[0]).None? ==> r == Failure(UnprocessableError)
    ensures |results| > 0 && ParseLong(results[0]).Some? ==> r == QuotaRemaining(ParseLong(results[0]).value, fileLength, quota)
  {
    if |results| == 0 then Failure(IndexOutOfBounds)
    else
      match ParseLong(results[0])
      case None => Failure(UnprocessableError)
      case Some(usage) => QuotaRemaining(usage, fileLength, quota)
  }
}
