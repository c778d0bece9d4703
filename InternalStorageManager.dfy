// Names, ids and URLs of files in the internal storage
// (de.mpg.imeji.logic.storage.internal.InternalStorageManager). A stored
// file lives under "<collection>/<uuid split in four>/<version>" and each
// resolution of it has its own URL. The UUID generator and the file
// system's existence test are parameters.
module InternalStorageManager {
  import opened Wrappers
  import opened JavaStrings
  import opened StorageUtils

  /** `Storage.FileResolution`, in the order `getResolution` tries them. */
  datatype FileResolution = Thumbnail | Web | Original | Full

  const Resolutions: seq<FileResolution> := [Thumbnail, Web, Original, Full]

  /** `resolution.name().toLowerCase()`. */
  function ResolutionName(r: FileResolution): string {
    match r
    case Thumbnail => "thumbnail"
    case Web => "web"
    case Original => "original"
    case Full => "full"
  }

  // ---------------------------------------------------------------------
  // getFileName

  /** `getFileName`: the segment after the last separator, one trailing separator ignored. */
  function GetFileName(pathOrUrl: string, sep: char): (r: string)
    ensures sep !in r
  {
    var p := if EndsWith(pathOrUrl, [sep]) then pathOrUrl[..LastIndexOfChar(pathOrUrl, sep)] else pathOrUrl;
    AfterLastProperties(p, sep);
    AfterLast(p, sep)
  }

  /** The last segment is found whether or not the text ends with the separator. */
  lemma GetFileNameSegment(dir: string, sep: char, name: string)
    requires sep !in name && name != ""
    ensures GetFileName(dir + [sep] + name, sep) == name
    ensures GetFileName(dir + [sep] + name + [sep], sep) == name
  {
    var p := dir + [sep] + name;
    assert !EndsWith(p, [sep]) by {
      assert p[|p| - 1..] == [name[|name| - 1]];
    }
    AfterLastAppend(dir, sep, name);
    var q := p + [sep];
    assert EndsWith(q, [sep]) by { assert q[|q| - 1..] == [sep]; }
    assert LastIndexOfChar(q, sep) == |p|;
    assert q[..|p|] == p;
  }

  // ---------------------------------------------------------------------
  // Storage ids

  /** `generateId`: the collection, the UUID cut after 2, 4 and 6 characters, and the version. */
  function GenerateId(collectionId: string, uuid: string, version: nat): string
    requires |uuid| >= 6
  {
    collectionId + "/" + uuid[..2] + "/" + uuid[2..4] + "/" + uuid[4..6] + "/" + uuid[6..] + "/" + NatToString(version)
  }

  /** The version is the last segment of the id, so different versions give different ids. */
  lemma GenerateIdVersion(collectionId: string, uuid: string, version: nat)
    requires |uuid| >= 6
    ensures AfterLast(GenerateId(collectionId, uuid, version), '/') == NatToString(version)
  {
    var v := NatToString(version);
    var a := collectionId + "/" + uuid[..2] + "/" + uuid[2..4] + "/" + uuid[4..6] + "/" + uuid[6..];
    assert GenerateId(collectionId, uuid, version) == a + ['/'] + v;
    AfterLastAppend(a, '/', v);
  }

  lemma GenerateIdDistinct(collectionId: string, u1: string, u2: string, v1: nat, v2: nat)
    requires |u1| >= 6 && |u2| >= 6 && v1 != v2
    ensures GenerateId(collectionId, u1, v1) != GenerateId(collectionId, u2, v2)
  {
    GenerateIdVersion(collectionId, u1, v1);
    GenerateIdVersion(collectionId, u2, v2);
    if NatToString(v1) == NatToString(v2) {
      NatToStringInjective(v1, v2);
    }
  }

  /** The ids of the attempts before version `n`. */
  ghost function Tried(collectionId: string, uuid: nat -> string, n: nat): set<string>
    requires forall k :: |uuid(k)| >= 6
  {
    if n == 0 then {} else Tried(collectionId, uuid, n - 1) + {GenerateId(collectionId, uuid(n - 1), n - 1)}
  }

  /** No earlier attempt produced the id of attempt `n`. */
  lemma {:induction false} TriedFresh(collectionId: string, uuid: nat -> string, n: nat, m: nat)
    requires forall k :: |uuid(k)| >= 6
    requires n <= m
    ensures GenerateId(collectionId, uuid(m), m) !in Tried(collectionId, uuid, n)
  {
    if n > 0 {
      TriedFresh(collectionId, uuid, n - 1, m);
      GenerateIdDistinct(collectionId, uuid(n - 1), uuid(m), n - 1, m);
    }
  }

  /** Every attempt before version `n` is among the ids tried. */
  lemma {:induction false} TriedMembers(collectionId: string, uuid: nat -> string, n: nat)
    requires forall k :: |uuid(k)| >= 6
    ensures forall v :: 0 <= v < n ==> GenerateId(collectionId, uuid(v), v) in Tried(collectionId, uuid, n)
  {
    if n > 0 {
      TriedMembers(collectionId, uuid, n - 1);
    }
  }

  /** An existing id tried once more leaves fewer existing ids untried. */
  lemma TriedShrinks(collectionId: string, uuid: nat -> string, existing: set<string>, n: nat)
    requires forall k :: |uuid(k)| >= 6
    requires GenerateId(collectionId, uuid(n), n) in existing
    ensures |existing - Tried(collectionId, uuid, n + 1)| < |existing - Tried(collectionId, uuid, n)|
  {
    var id := GenerateId(collectionId, uuid(n), n);
    TriedFresh(collectionId, uuid, n, n);
    var before := existing - Tried(collectionId, uuid, n);
    var after := existing - Tried(collectionId, uuid, n + 1);
    assert Tried(collectionId, uuid, n + 1) == Tried(collectionId, uuid, n) + {id};
    assert before == after + {id};
    assert id !in after;
  }

  /**
   * `generateIdWithVersion`: version 0 first, then one more each time the
   * id already exists. `uuid(k)` is the UUID drawn at the k-th attempt
   * (each attempt draws a new one) and `existing` the ids whose directory
   * exists.
   */
  method GenerateIdWithVersion(collectionId: string, uuid: nat -> string, existing: set<string>)
    returns (id: string, version: nat)
    requires forall k :: |uuid(k)| >= 6
    ensures id == GenerateId(collectionId, uuid(version), version)
    ensures id !in existing
    ensures forall v :: 0 <= v < version ==> GenerateId(collectionId, uuid(v), v) in existing
  {
    version := 0;
    id := GenerateId(collectionId, uuid(0), 0);
    while id in existing
      invariant id == GenerateId(collectionId, uuid(version), version)
      invariant Tried(collectionId, uuid, version) <= existing
      decreases |existing - Tried(collectionId, uuid, version)|
    {
      TriedShrinks(collectionId, uuid, existing, version);
      version := version + 1;
      id := GenerateId(collectionId, uuid(version), version);
    }
    TriedMembers(collectionId, uuid, version);
  }

  // ---------------------------------------------------------------------
  // URLs of the resolutions

  /** `isTransformableImage`: an image type other than gif and svg (compared as written, case included). */
  function IsTransformableImage(extension: string, detect: Detector): (r: bool)
    ensures r ==> Contains(MimeType(Some(extension), detect), "image")
    ensures extension == "gif" || extension == "svg" ==> !r
  {
    if !Contains(MimeType(Some(extension), detect), "image") then false
    else if extension == "gif" then false
    else if extension == "svg" then false
    else true
  }

  /** The name a resolution gets: the original keeps it, the others end in ".jpg" (the full one only when transformable). */
  function ResolutionFileName(filename: string, resolution: FileResolution, transformable: bool): string {
    if resolution != Original && (resolution != Full || transformable)
    then RemoveExtension(filename) + ".jpg"
    else filename
  }

  /**
   * `generateUrl` for a file name already normalized: the storage URL, the
   * id, the resolution's name and the file name, separated by '/'.
   */
  function GenerateUrl(storageUrl: string, id: string, filename: string, resolution: FileResolution, detect: Detector): (r: string)
    ensures StartsWith(r, storageUrl + id + "/" + ResolutionName(resolution) + "/")
  {
    var dir := storageUrl + id + "/" + ResolutionName(resolution) + "/";
    var name := ResolutionFileName(filename, resolution, IsTransformableImage(Extension(filename), detect));
    assert (dir + name)[..|dir|] == dir;
    dir + name
  }

  /** What each resolution's file is called. */
  lemma ResolutionFileNameSpec(filename: string, resolution: FileResolution, transformable: bool)
    ensures resolution == Original || (resolution == Full && !transformable) ==>
      ResolutionFileName(filename, resolution, transformable) == filename
    ensures resolution == Thumbnail || resolution == Web || (resolution == Full && transformable) ==>
      Extension(ResolutionFileName(filename, resolution, transformable)) == "jpg" &&
      RemoveExtension(ResolutionFileName(filename, resolution, transformable)) == RemoveExtension(filename)
  {
    if resolution != Original && (resolution != Full || transformable) {
      var base := RemoveExtension(filename);
      assert base + ".jpg" == base + "." + "jpg";
      assert "jpg" == ['j', 'p', 'g'];
      ExtensionOfAppended(base, "jpg");
    }
  }

  /** The file name of a generated URL is the resolution's file name. */
  lemma GenerateUrlName(storageUrl: string, id: string, filename: string, resolution: FileResolution, detect: Detector)
    ensures var name := ResolutionFileName(filename, resolution, IsTransformableImage(Extension(filename), detect));
      '/' !in name && name != "" ==> GetFileName(GenerateUrl(storageUrl, id, filename, resolution, detect), '/') == name
  {
    var name := ResolutionFileName(filename, resolution, IsTransformableImage(Extension(filename), detect));
    if '/' !in name && name != "" {
      var dir := storageUrl + id + "/" + ResolutionName(resolution);
      assert GenerateUrl(storageUrl, id, filename, resolution, detect) == dir + ['/'] + name;
      GetFileNameSegment(dir, '/', name);
    }
  }

  /** `getResolution`: the first resolution whose name occurs in the path, else ORIGINAL. */
  function GetResolution(path: string): (r: FileResolution)
    ensures r != Original ==> Contains(path, ResolutionName(r))
  {
    if Contains(path, "thumbnail") then Thumbnail
    else if Contains(path, "web") then Web
    else if Contains(path, "original") then Original
    else if Contains(path, "full") then Full
    else Original
  }

  /** The position of a resolution in the order `getResolution` tries them. */
  function Rank(r: FileResolution): nat {
    match r
    case Thumbnail => 0
    case Web => 1
    case Original => 2
    case Full => 3
  }

  /**
   * A URL of the shape `generateUrl` produces, "<prefix>/<resolution>/<name>",
   * is read back as its own resolution, as long as no resolution tried
   * before it has its name elsewhere in the URL.
   */
  lemma GetResolutionOfUrl(prefix: string, resolution: FileResolution, name: string)
    requires forall r :: Rank(r) < Rank(resolution) ==>
      !Contains(prefix + "/" + ResolutionName(resolution) + "/" + name, ResolutionName(r))
    ensures GetResolution(prefix + "/" + ResolutionName(resolution) + "/" + name) == resolution
  {
    var url := prefix + "/" + ResolutionName(resolution) + "/" + name;
    var k := |prefix + "/"|;
    var n := ResolutionName(resolution);
    assert url == prefix + "/" + n + ("/" + name);
    assert url[k..k + |n|] == n;
    ContainsAt(url, n, k);
    assert Rank(Thumbnail) == 0 && Rank(Web) == 1 && Rank(Original) == 2;
  }

  /** The name given to a file whose extension is missing or "tmp": the guessed extension is appended. */
  function StoredFileName(fileName: string, guessedExtension: string): (r: string)
    ensures Extension(fileName) != "" && Extension(fileName) != "tmp" ==> r == fileName
  {
    var e := Extension(fileName);
    if e == "" || e == "tmp" then fileName + "." + guessedExtension else fileName
  }

  /** After the fix the extension is the guessed one, when that is a plain extension. */
  lemma StoredFileNameExtension(fileName: string, guessedExtension: string)
    requires '.' !in guessedExtension && forall i :: 0 <= i < |guessedExtension| ==> !IsSeparator(guessedExtension[i])
    requires Extension(fileName) == "" || Extension(fileName) == "tmp"
    ensures Extension(StoredFileName(fileName, guessedExtension)) == guessedExtension
  {
    ExtensionOfAppended(fileName, guessedExtension);
  }

  /** `InternalStorageItem`: the id, the name as uploaded, and the URL of each resolution. */
  datatype StorageItem = StorageItem(id: string, fileName: string,
    originalUrl: string, thumbnailUrl: string, webUrl: string, fullUrl: string)

  /**
   * `generateInternalStorageItem` once the id is chosen: the URLs are built
   * from the name with the guessed extension added where needed.
   */
  function GenerateInternalStorageItem(storageUrl: string, id: string, fileName: string,
                                       guessedExtension: string, detect: Detector): (r: StorageItem)
    ensures r.id == id && r.fileName == fileName
    ensures StartsWith(r.originalUrl, storageUrl + id + "/" + ResolutionName(Original) + "/")
    ensures StartsWith(r.thumbnailUrl, storageUrl + id + "/" + ResolutionName(Thumbnail) + "/")
    ensures StartsWith(r.webUrl, storageUrl + id + "/" + ResolutionName(Web) + "/")
    ensures StartsWith(r.fullUrl, storageUrl + id + "/" + ResolutionName(Full) + "/")
    ensures EndsWith(r.originalUrl, StoredFileName(fileName, guessedExtension))
  {
    var name := StoredFileName(fileName, guessedExtension);
    var o := GenerateUrl(storageUrl, id, name, Original, detect);
    assert o == storageUrl + id + "/" + ResolutionName(Original) + "/" + name;
    assert o[|o| - |name|..] == name;
    StorageItem(id, fileName,
      GenerateUrl(storageUrl, id, name, Original, detect),
      GenerateUrl(storageUrl, id, name, Thumbnail, detect),
      GenerateUrl(storageUrl, id, name, Web, detect),
      GenerateUrl(storageUrl, id, name, Full, detect))
  }
}
