// File names, extensions and mime types (de.mpg.imeji.logic.util.StorageUtils),
// with the parts of Apache Commons IO's `FilenameUtils` they rely on.
// Tika's guess of a mime type from a file name is a function the caller
// supplies (`Detector`); it answers "" when it knows nothing.
module StorageUtils {
  import opened Wrappers
  import opened JavaStrings

  const DefaultMimeType: string := "application/octet-stream"
  const MaxLengthFileExtension: int := 20

  /** Tika's `detect(name)`: the mime type it guesses for a file name. */
  type Detector = string -> string

  /** The exceptions the helpers let escape. */
  datatype Error = NullPointer

  // ---------------------------------------------------------------------
  // FilenameUtils

  predicate IsSeparator(c: char) { c == '/' || c == '\\' }

  /** The index of the last '/' or '\', or -1. */
  function LastSeparator(name: string): (r: int)
    ensures -1 <= r < |name|
    ensures r >= 0 ==> IsSeparator(name[r])
  {
    var a := LastIndexOfChar(name, '/');
    var b := LastIndexOfChar(name, '\\');
    if a > b then a else b
  }

  lemma LastSeparatorLast(name: string, j: int)
    requires LastSeparator(name) < j < |name|
    ensures !IsSeparator(name[j])
  {
    LastIndexOfCharLast(name, '/', j);
    LastIndexOfCharLast(name, '\\', j);
  }

  /** `indexOfExtension`: the last '.', unless a separator follows it; else -1. */
  function ExtensionDot(name: string): (r: int)
    ensures -1 <= r < |name|
    ensures r >= 0 ==> name[r] == '.' && LastSeparator(name) < r
  {
    var d := LastIndexOfChar(name, '.');
    if LastSeparator(name) > d then -1 else d
  }

  /** `FilenameUtils.getExtension`: the text after the extension dot, or "". */
  function Extension(name: string): string {
    var d := ExtensionDot(name);
    if d < 0 then "" else name[d + 1..]
  }

  /** `FilenameUtils.removeExtension`: everything before the extension dot. */
  function RemoveExtension(name: string): string {
    var d := ExtensionDot(name);
    if d < 0 then name else name[..d]
  }

  /** `FilenameUtils.getName`: the text after the last separator. */
  function GetName(name: string): (r: string)
    ensures EndsWith(name, r)
    ensures forall i :: 0 <= i < |r| ==> !IsSeparator(r[i])
  {
    var k := LastSeparator(name);
    var r := name[k + 1..];
    forall i | 0 <= i < |r| ensures !IsSeparator(r[i]) {
      LastSeparatorLast(name, k + 1 + i);
    }
    r
  }

  /** Removing the extension and putting back "." and the extension gives the name again. */
  lemma RemoveExtensionJoin(name: string)
    ensures ExtensionDot(name) >= 0 ==> RemoveExtension(name) + "." + Extension(name) == name
    ensures ExtensionDot(name) < 0 ==> RemoveExtension(name) == name && Extension(name) == ""
  {
    var d := ExtensionDot(name);
    if d >= 0 {
      assert name == name[..d] + [name[d]] + name[d + 1..];
    }
  }

  /** An extension holds no '.' and no separator. */
  lemma ExtensionPlain(name: string)
    ensures '.' !in Extension(name)
    ensures forall i :: 0 <= i < |Extension(name)| ==> !IsSeparator(Extension(name)[i])
  {
    var d := ExtensionDot(name);
    if d >= 0 {
      var e := Extension(name);
      forall i | 0 <= i < |e| ensures e[i] != '.' && !IsSeparator(e[i]) {
        LastIndexOfCharLast(name, '.', d + 1 + i);
        LastSeparatorLast(name, d + 1 + i);
      }
    }
  }

  /** Appending "." and a plain extension makes that the extension. */
  lemma {:induction false} ExtensionOfAppended(base: string, e: string)
    requires '.' !in e && forall i :: 0 <= i < |e| ==> !IsSeparator(e[i])
    ensures Extension(base + "." + e) == e
    ensures RemoveExtension(base + "." + e) == base
  {
    var n := base + "." + e;
    assert n == base + ['.'] + e;
    AfterLastAppend(base, '.', e);
    var d := LastIndexOfChar(n, '.');
    assert n[|base|] == '.';
    if d < |base| {
      LastIndexOfCharLast(n, '.', |base|);
    }
    assert d == |base|;
    assert n[..d] == base;
  }

  // ---------------------------------------------------------------------
  // Mime types

  /** The if-chain of `getMimeType`, on an extension already in lower case; `None` when Tika must decide. */
  function KnownMimeType(ext: string): (r: Option<string>)
    ensures r.Some? ==> r.value != ""
  {
    if ext == "tif" then Some("image/tiff")
    else if ext == "jpg" || ext == "jpeg" then Some("image/jpeg")
    else if ext == "png" then Some("image/png")
    else if ext == "bmp" then Some("image/bmp")
    else if ext == "gif" then Some("image/gif")
    else if ext == "pdn" then Some("image/x-paintnet")
    else if ext == "mov" then Some("video/quicktime")
    else if ext == "avi" then Some("video/x-msvideo")
    else if ext == "3gp" then Some("video/3gpp")
    else if ext == "eps" then Some("application/eps")
    else if ext == "ts" then Some("video/MP2T")
    else if ext == "svg" then Some("image/svg+xml")
    else if ext == "jp2" || ext == "j2k" || ext == "jpf" then Some("image/jp2")
    else if ext == "mj2" then Some("image/mj2")
    else if ext == "jpf" then Some("image/jpf")
    else if ext == "jpx" then Some("image/jpx")
    else if ext == "mpg" then Some("video/mpeg")
    else if ext == "mpga" then Some("audio/mpeg")
    else if ext == "nef" then Some("image/x-nikon-nef")
    else if ext == "mp4" then Some("video/mp4")
    else if ext == "wmv" then Some("video/x-ms-wmv")
    else if ext == "webm" then Some("video/webm")
    else if ext == "ogg" then Some("video/ogg")
    else if ext == "flv" then Some("video/x-flv")
    else if ext == "pdf" then Some("application/pdf")
    else if ext == "fit" || ext == "fits" then Some("application/fits")
    else if ext == "mp3" || ext == "mpeg" then Some("audio/mpeg")
    else if ext == "wav" then Some("audio/x-wav")
    else if ext == "wma" then Some("audio/x-ms-wma")
    else if ext == "cmd" then Some("application/cmd")
    else None
  }

  /** Tika's answer for "name." + the extension, or the default type when it has none. */
  function DetectedMimeType(ext: string, detect: Detector): (r: string)
    ensures r != ""
  {
    var d := detect("name." + ext);
    if d == "" then DefaultMimeType else d
  }

  /**
   * `getMimeType(extension)`: the extension is lower-cased, looked up in the
   * table, and otherwise given to Tika; a null extension reaches Tika as
   * the file name "name.null".
   */
  function MimeType(ext: Option<string>, detect: Detector): (r: string)
    ensures r != ""
    ensures ext.None? ==> r == DetectedMimeType("null", detect)
    ensures ext.Some? && KnownMimeType(ToLower(ext.value)).Some? ==> r == KnownMimeType(ToLower(ext.value)).value
    ensures ext.Some? && KnownMimeType(ToLower(ext.value)).None? ==> r == DetectedMimeType(ToLower(ext.value), detect)
  {
    match ext
    case None => DetectedMimeType("null", detect)
    case Some(e) =>
      var lower := ToLower(e);
      match KnownMimeType(lower)
      case Some(m) => m
      case None => DetectedMimeType(lower, detect)
  }

  /**
   * Entries of the table in any case: jpg and jpeg are image/jpeg, tif is
   * image/tiff, mp3 and mpeg are audio/mpeg, and jpf meets the jp2 entry
   * before its own.
   */
  lemma MimeTypeTable(e: string, detect: Detector)
    ensures ToLower(e) == "jpg" || ToLower(e) == "jpeg" ==> MimeType(Some(e), detect) == "image/jpeg"
    ensures ToLower(e) == "tif" ==> MimeType(Some(e), detect) == "image/tiff"
    ensures ToLower(e) == "mp3" || ToLower(e) == "mpeg" ==> MimeType(Some(e), detect) == "audio/mpeg"
    ensures ToLower(e) == "jpf" ==> MimeType(Some(e), detect) == "image/jp2"
  {
    KnownEntries();
  }

  /** The entries of the table that `MimeTypeTable` names. */
  lemma KnownEntries()
    ensures KnownMimeType("jpg") == Some("image/jpeg") && KnownMimeType("jpeg") == Some("image/jpeg")
    ensures KnownMimeType("tif") == Some("image/tiff")
    ensures KnownMimeType("mp3") == Some("audio/mpeg") && KnownMimeType("mpeg") == Some("audio/mpeg")
    ensures KnownMimeType("jpf") == Some("image/jp2")
  {
    KnownMp3();
    KnownMpeg();
    KnownJpf();
  }

  lemma KnownMp3()
    ensures KnownMimeType("mp3") == Some("audio/mpeg")
  {
  }

  lemma KnownMpeg()
    ensures KnownMimeType("mpeg") == Some("audio/mpeg")
  {
  }

  lemma KnownJpf()
    ensures KnownMimeType("jpf") == Some("image/jp2")
  {
  }

  lemma {:induction false} ToLowerIdempotent(s: string)
    ensures ToLower(ToLower(s)) == ToLower(s)
  {
    var t := ToLower(s);
    assert forall i :: 0 <= i < |s| ==> LowerChar(t[i]) == t[i];
  }

  /** The lookup ignores case: an extension and its lower-case form have the same mime type. */
  lemma MimeTypeIgnoresCase(e: string, detect: Detector)
    ensures MimeType(Some(e), detect) == MimeType(Some(ToLower(e)), detect)
  {
    ToLowerIdempotent(e);
  }

  /**
   * `compareExtension`: false when either extension is blank; two
   * extensions of the default type are compared by name ignoring case, any
   * others by mime type. A null extension throws.
   */
  function CompareExtension(ext1: Option<string>, ext2: Option<string>, detect: Detector): (r: Result<bool, Error>)
    ensures (ext1.None? || ext2.None?) <==> r == Failure(NullPointer)
    ensures ext1.Some? && ext2.Some? && (IsBlank(ext1.value) || IsBlank(ext2.value)) ==> r == Success(false)
  {
    if ext1.None? || ext2.None? then Failure(NullPointer)
    else
      var e1 := ext1.value;
      var e2 := ext2.value;
      TrimBlank(e1);
      TrimBlank(e2);
      if Trim(e1) == "" || Trim(e2) == "" then Success(false)
      else
        var m1 := MimeType(Some(Trim(e1)), detect);
        var m2 := MimeType(Some(Trim(e2)), detect);
        if m1 == DefaultMimeType && m2 == DefaultMimeType then Success(EqualsIgnoreCase(e1, e2))
        else Success(m1 == m2)
  }

  /** The comparison does not depend on the order of its arguments. */
  lemma CompareExtensionSymmetric(ext1: Option<string>, ext2: Option<string>, detect: Detector)
    ensures CompareExtension(ext1, ext2, detect) == CompareExtension(ext2, ext1, detect)
  {
  }

  /** Any spelling of jpg or jpeg, with surrounding spaces, names the same format. */
  lemma CompareJpegSpellings(e1: string, e2: string, detect: Detector)
    requires ToLower(Trim(e1)) == "jpg" || ToLower(Trim(e1)) == "jpeg"
    requires ToLower(Trim(e2)) == "jpg" || ToLower(Trim(e2)) == "jpeg"
    ensures CompareExtension(Some(e1), Some(e2), detect) == Success(true)
  {
    TrimBlank(e1);
    TrimBlank(e2);
    MimeTypeTable(Trim(e1), detect);
    MimeTypeTable(Trim(e2), detect);
  }

  // ---------------------------------------------------------------------
  // Extensions of file names

  predicate IsAsciiAlphanumeric(c: char) {
    ('a' <= c <= 'z') || ('A' <= c <= 'Z') || ('0' <= c <= '9')
  }

  /** The extension fully matches `[a-zA-Z\d]{1,20}?`. */
  predicate WellFormedExtension(e: string) {
    1 <= |e| <= MaxLengthFileExtension && forall i :: 0 <= i < |e| ==> IsAsciiAlphanumeric(e[i])
  }

  /** `getExtensionFromFileName`: "" for null, the extension when it is 1 to 20 letters or digits, else " ". */
  function ExtensionFromFileName(filename: Option<string>): (r: string)
    ensures filename.None? ==> r == ""
    ensures filename.Some? && WellFormedExtension(Extension(filename.value)) ==> r == Extension(filename.value)
    ensures filename.Some? && !WellFormedExtension(Extension(filename.value)) ==> r == " "
  {
    if filename.None? then ""
    else
      var e := Extension(filename.value);
      if e == "" || !WellFormedExtension(e) then " " else e
  }

  /** The answer is never empty for a name, and is either a real extension or the single blank. */
  lemma ExtensionFromFileNameShape(filename: string)
    ensures var r := ExtensionFromFileName(Some(filename));
      r == " " || (WellFormedExtension(r) && EndsWith(filename, "." + r))
  {
    var r := ExtensionFromFileName(Some(filename));
    if r != " " {
      RemoveExtensionJoin(filename);
      var b := RemoveExtension(filename);
      assert filename == b + ("." + r);
    }
  }

  /** `replaceExtension`: the name without its extension, then "." and the new one. */
  function ReplaceExtension(url: string, newExt: string): string {
    RemoveExtension(url) + "." + newExt
  }

  /** The new extension is the one read back, and replacing twice is replacing once. */
  lemma ReplaceExtensionSpec(url: string, e1: string, e2: string)
    requires '.' !in e1 && forall i :: 0 <= i < |e1| ==> !IsSeparator(e1[i])
    ensures Extension(ReplaceExtension(url, e1)) == e1
    ensures ReplaceExtension(ReplaceExtension(url, e1), e2) == ReplaceExtension(url, e2)
  {
    ExtensionOfAppended(RemoveExtension(url), e1);
  }
}
