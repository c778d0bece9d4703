// Object URIs (de.mpg.imeji.logic.util.ObjectHelper): the id at the end of
// an object's URI, the type of object a URI names, and the URI rebuilt
// from the id under the base of a model class.
module ObjectHelper {
  import opened Wrappers
  import opened JavaStrings

  /** The kinds of object, in the enum's declaration order. */
  datatype ObjectType = Collection | Item | Album | Profile | System

  const ObjectTypes: seq<ObjectType> := [Collection, Item, Album, Profile, System]

  /** `type.name().toLowerCase()`. */
  function TypeName(t: ObjectType): string {
    match t
    case Collection => "collection"
    case Item => "item"
    case Album => "album"
    case Profile => "profile"
    case System => "system"
  }

  /**
   * A `java.net.URI` as its string form and its decoded path. An opaque
   * URI such as "urn:a" has no path (`getPath()` is null).
   */
  datatype Uri = Uri(text: string, path: Option<string>)

  /** The exceptions the helpers let escape. */
  datatype Error = NullPointer | IndexOutOfBounds

  // ---------------------------------------------------------------------
  // getId

  /** The path fully matches `(.*)/(\d+)`: its last '/' is followed by ASCII digits only, and nothing before it ends a line. */
  predicate MatchesIdPath(p: string) {
    var k := LastIndexOfChar(p, '/');
    0 <= k < |p| - 1 && AllDigits(p[k + 1..]) && NoLineTerminator(p[..k])
  }

  /** The match holds exactly when some '/' is followed by a non-empty run of digits up to the end, with no line terminator before it. */
  lemma MatchesIdPathSplit(p: string)
    ensures MatchesIdPath(p) <==>
      exists k :: 0 <= k < |p| - 1 && p[k] == '/' && AllDigits(p[k + 1..]) && NoLineTerminator(p[..k])
  {
    if exists k :: 0 <= k < |p| - 1 && p[k] == '/' && AllDigits(p[k + 1..]) && NoLineTerminator(p[..k]) {
      var k :| 0 <= k < |p| - 1 && p[k] == '/' && AllDigits(p[k + 1..]) && NoLineTerminator(p[..k]);
      var last := LastIndexOfChar(p, '/');
      if last > k {
        assert p[k + 1..][last - k - 1] == p[last];
      } else if last < k {
        LastIndexOfCharLast(p, '/', k);
      }
    }
  }

  /** `getId`: the trailing digit group of the path, else the text after the last '/' of the whole URI string. */
  function GetId(u: Uri): Result<string, Error> {
    if u.path.None? then Failure(NullPointer)
    else if MatchesIdPath(u.path.value) then Success(AfterLast(u.path.value, '/'))
    else
      var k := LastIndexOfChar(u.text, '/');
      if k < 0 then Failure(IndexOutOfBounds)
      else Success(Replace(u.text[k..], "/", ""))
  }

  /** Dropping the '/' from "/" followed by a text without '/' leaves that text. */
  lemma ReplaceLeadingSlash(b: string)
    requires '/' !in b
    ensures Replace("/" + b, "/", "") == b
  {
    assert ("/" + b)[1..] == b;
    ContainsChar(b, '/');
    ReplaceAbsent(b, "/", "");
  }

  /** Without a path, `getId` throws on the null path. */
  lemma GetIdNoPath(u: Uri)
    ensures u.path.None? <==> GetId(u) == Failure(NullPointer)
  {
  }

  /** When the path ends in "/" and digits, the id is those digits. */
  lemma GetIdMatched(u: Uri)
    requires u.path.Some? && MatchesIdPath(u.path.value)
    ensures GetId(u) == Success(AfterLast(u.path.value, '/'))
    ensures |GetId(u).value| > 0 && AllDigits(GetId(u).value) && '/' !in GetId(u).value
  {
    var p := u.path.value;
    var k := LastIndexOfChar(p, '/');
    assert AfterLast(p, '/') == p[k + 1..];
  }

  /** Otherwise the id is the text after the last '/' of the URI string, and there is none without a '/'. */
  lemma GetIdUnmatched(u: Uri)
    requires u.path.Some? && !MatchesIdPath(u.path.value)
    ensures '/' in u.text ==> GetId(u) == Success(AfterLast(u.text, '/')) && '/' !in GetId(u).value
    ensures '/' !in u.text ==> GetId(u) == Failure(IndexOutOfBounds)
  {
    var t := u.text;
    var k := LastIndexOfChar(t, '/');
    AfterLastProperties(t, '/');
    if k >= 0 {
      assert t[k..] == "/" + AfterLast(t, '/');
      ReplaceLeadingSlash(AfterLast(t, '/'));
    } else {
      assert '/' !in t by {
        forall j | 0 <= j < |t| ensures t[j] != '/' { LastIndexOfCharLast(t, '/', j); }
      }
    }
  }

  /** A URI whose string and path both end in "/" + `seg` has the id `seg`, whichever branch finds it. */
  lemma GetIdLastSegment(u: Uri, a: string, q: string, seg: string)
    requires '/' !in seg
    requires u.text == a + "/" + seg
    requires u.path == Some(q + "/" + seg)
    ensures GetId(u) == Success(seg)
  {
    assert a + "/" + seg == a + ['/'] + seg;
    assert q + "/" + seg == q + ['/'] + seg;
    AfterLastAppend(a, '/', seg);
    AfterLastAppend(q, '/', seg);
    if MatchesIdPath(q + "/" + seg) {
      GetIdMatched(u);
    } else {
      assert u.text[|a|] == '/';
      GetIdUnmatched(u);
    }
  }

  // ---------------------------------------------------------------------
  // getObjectType

  /** The first type, in `types` order, whose "/" + lower-case name occurs in the path. */
  function FirstTypeIn(path: string, types: seq<ObjectType>): Option<ObjectType> {
    if |types| == 0 then None
    else if Contains(path, "/" + TypeName(types[0])) then Some(types[0])
    else FirstTypeIn(path, types[1..])
  }

  lemma {:induction false} FirstTypeInSpec(path: string, types: seq<ObjectType>)
    ensures FirstTypeIn(path, types).None? <==>
      forall i :: 0 <= i < |types| ==> !Contains(path, "/" + TypeName(types[i]))
    ensures FirstTypeIn(path, types).Some? ==>
      exists i :: 0 <= i < |types| && types[i] == FirstTypeIn(path, types).value &&
        Contains(path, "/" + TypeName(types[i])) &&
        forall j :: 0 <= j < i ==> !Contains(path, "/" + TypeName(types[j]))
  {
    if |types| > 0 {
      FirstTypeInSpec(path, types[1..]);
      if !Contains(path, "/" + TypeName(types[0])) {
        if FirstTypeIn(path, types).Some? {
          var i :| 0 <= i < |types[1..]| && types[1..][i] == FirstTypeIn(path, types).value &&
            Contains(path, "/" + TypeName(types[1..][i])) &&
            forall j :: 0 <= j < i ==> !Contains(path, "/" + TypeName(types[1..][j]));
          assert types[i + 1] == FirstTypeIn(path, types).value;
          assert forall j :: 0 <= j < i + 1 ==> !Contains(path, "/" + TypeName(types[j])) by {
            forall j | 0 <= j < i + 1 ensures !Contains(path, "/" + TypeName(types[j])) {
              if j > 0 { assert types[j] == types[1..][j - 1]; }
            }
          }
        } else {
          forall i | 0 <= i < |types| ensures !Contains(path, "/" + TypeName(types[i])) {
            if i > 0 { assert types[i] == types[1..][i - 1]; }
          }
        }
      }
    }
  }

  /** `StringUtils.containsIgnoreCase` (case folding of ASCII letters). */
  predicate ContainsIgnoreCase(s: string, t: string) {
    Contains(ToLower(s), ToLower(t))
  }

  /** The type named by a path: the first enum type found, else PROFILE on a case-insensitive match, else null. */
  function TypeOfPath(path: string): Option<ObjectType> {
    var found := FirstTypeIn(path, ObjectTypes);
    if found.Some? then found
    else if ContainsIgnoreCase(path, "PROFILE") then Some(Profile)
    else None
  }

  /** `getObjectType`: SYSTEM for the base URI itself, else the type of the path. */
  function GetObjectType(u: Uri, baseUri: string): Result<Option<ObjectType>, Error> {
    if u.text == baseUri then Success(Some(System))
    else if u.path.None? then Failure(NullPointer)
    else Success(TypeOfPath(u.path.value))
  }

  /** `ObjectTypes[i]` is the first type, in declaration order, whose "/" + name occurs in the path. */
  predicate FirstMatch(path: string, i: int) {
    0 <= i < |ObjectTypes| && Contains(path, "/" + TypeName(ObjectTypes[i])) &&
    forall j :: 0 <= j < i ==> !Contains(path, "/" + TypeName(ObjectTypes[j]))
  }

  /** No type name occurs in the path. */
  predicate NoTypeIn(path: string) {
    forall i :: 0 <= i < |ObjectTypes| ==> !Contains(path, "/" + TypeName(ObjectTypes[i]))
  }

  /** The base URI is the system, and a URI without a path fails. */
  lemma GetObjectTypeBase(u: Uri, baseUri: string)
    ensures u.text == baseUri ==> GetObjectType(u, baseUri) == Success(Some(System))
    ensures u.text != baseUri && u.path.None? ==> GetObjectType(u, baseUri) == Failure(NullPointer)
  {
  }

  /** Any other URI gets the first enum type in its path, then the PROFILE fallback, then null. */
  lemma {:induction false} GetObjectTypeSpec(u: Uri, baseUri: string, i: int)
    requires u.text != baseUri && u.path.Some?
    ensures FirstMatch(u.path.value, i) ==> GetObjectType(u, baseUri) == Success(Some(ObjectTypes[i]))
    ensures NoTypeIn(u.path.value) && ContainsIgnoreCase(u.path.value, "PROFILE") ==>
      GetObjectType(u, baseUri) == Success(Some(Profile))
    ensures NoTypeIn(u.path.value) && !ContainsIgnoreCase(u.path.value, "PROFILE") ==>
      GetObjectType(u, baseUri) == Success(None)
  {
    var p := u.path.value;
    FirstTypeInSpec(p, ObjectTypes);
    var found := FirstTypeIn(p, ObjectTypes);
    if found.Some? {
      var k :| 0 <= k < |ObjectTypes| && ObjectTypes[k] == found.value &&
        Contains(p, "/" + TypeName(ObjectTypes[k])) &&
        forall j :: 0 <= j < k ==> !Contains(p, "/" + TypeName(ObjectTypes[j]));
    }
  }

  /** "/collection" anywhere in the path makes it a collection, whatever else the path holds. */
  lemma CollectionWins(u: Uri, baseUri: string)
    requires u.text != baseUri && u.path.Some?
    requires Contains(u.path.value, "/collection")
    ensures GetObjectType(u, baseUri) == Success(Some(Collection))
  {
    assert "/" + TypeName(ObjectTypes[0]) == "/collection";
  }

  // ---------------------------------------------------------------------
  // URLEncoder.encode(id, "UTF-8")

  /** The characters `URLEncoder` leaves as they are. */
  predicate UrlSafe(c: char) {
    ('a' <= c <= 'z') || ('A' <= c <= 'Z') || ('0' <= c <= '9') || c == '.' || c == '-' || c == '*' || c == '_'
  }

  /** The UTF-8 bytes of one Unicode scalar value. */
  function Utf8(c: char): (r: seq<nat>)
    ensures 1 <= |r| <= 4 && forall i :: 0 <= i < |r| ==> r[i] < 256
  {
    var n := c as int;
    if n < 0x80 then [n]
    else if n < 0x800 then [0xC0 + n / 64, 0x80 + n % 64]
    else if n < 0x1_0000 then [0xE0 + n / 4096, 0x80 + (n / 64) % 64, 0x80 + n % 64]
    else [0xF0 + n / 0x4_0000, 0x80 + (n / 4096) % 64, 0x80 + (n / 64) % 64, 0x80 + n % 64]
  }

  /** An upper-case hexadecimal digit. */
  function HexDigit(d: nat): (c: char)
    requires d < 16
    ensures UrlSafe(c)
  {
    if d < 10 then ('0' as int + d) as char else ('A' as int + d - 10) as char
  }

  /** "%XY" for each byte. */
  function PercentBytes(bs: seq<nat>): (r: string)
    requires forall i :: 0 <= i < |bs| ==> bs[i] < 256
    ensures |r| == 3 * |bs|
    ensures forall i :: 0 <= i < |r| ==> UrlSafe(r[i]) || r[i] == '%'
  {
    if |bs| == 0 then ""
    else "%" + [HexDigit(bs[0] / 16), HexDigit(bs[0] % 16)] + PercentBytes(bs[1..])
  }

  function EncodeChar(c: char): (r: string)
    ensures |r| >= 1 && (!UrlSafe(c) && c != ' ' ==> |r| >= 3)
    ensures forall i :: 0 <= i < |r| ==> UrlSafe(r[i]) || r[i] == '%' || r[i] == '+'
  {
    if UrlSafe(c) then [c]
    else if c == ' ' then "+"
    else PercentBytes(Utf8(c))
  }

  /** `URLEncoder.encode(s, "UTF-8")`. */
  function UrlEncode(s: string): (r: string)
    ensures |r| >= |s|
    ensures forall i :: 0 <= i < |r| ==> UrlSafe(r[i]) || r[i] == '%' || r[i] == '+'
  {
    if |s| == 0 then "" else EncodeChar(s[0]) + UrlEncode(s[1..])
  }

  /** A text of safe characters, such as a numeric id, is its own encoding. */
  lemma {:induction false} UrlEncodeSafe(s: string)
    requires forall i :: 0 <= i < |s| ==> UrlSafe(s[i])
    ensures UrlEncode(s) == s
  {
    if |s| > 0 {
      UrlEncodeSafe(s[1..]);
      assert s == [s[0]] + s[1..];
    }
  }

  /** Any other text changes under encoding: a space becomes '+', anything else grows to "%XY" groups. */
  lemma {:induction false} UrlEncodeChanges(s: string, k: int)
    requires 0 <= k < |s| && !UrlSafe(s[k])
    ensures UrlEncode(s) != s
    decreases |s|, k
  {
    if k == 0 {
      if s[0] == ' ' {
        assert UrlEncode(s)[0] == '+';
      } else {
        assert |UrlEncode(s)| == |EncodeChar(s[0])| + |UrlEncode(s[1..])|;
      }
    } else if UrlSafe(s[0]) {
      UrlEncodeChanges(s[1..], k - 1);
      assert UrlEncode(s) == [s[0]] + UrlEncode(s[1..]);
      assert s == [s[0]] + s[1..];
    } else {
      UrlEncodeChanges(s, 0);
    }
  }

  // ---------------------------------------------------------------------
  // getURI and normalizeURI

  /**
   * `getURI`: the base URI of the model class followed by the encoded id.
   * `classBase` is what the class's annotation and the configured base URI
   * give once normalized.
   */
  function GetUri(classBase: string, id: string): string {
    classBase + UrlEncode(id)
  }

  /** `normalizeURI`: the URI rebuilt from the id under the class's base. */
  function NormalizeUri(classBase: string, u: Uri): (r: Result<string, Error>)
    ensures GetId(u).Failure? ==> r == Failure(GetId(u).error)
  {
    match GetId(u)
    case Failure(e) => Failure(e)
    case Success(id) => Success(GetUri(classBase, id))
  }

  /** Under a base ending in '/', the rebuilt URI's last segment is the encoded id, and reading its id back gives that segment. */
  lemma NormalizeKeepsId(classBase: string, u: Uri, v: Uri, q: string)
    requires EndsWith(classBase, "/")
    requires GetId(u).Success?
    requires v.text == NormalizeUri(classBase, u).value
    requires v.path == Some(q + "/" + UrlEncode(GetId(u).value))
    ensures GetId(v) == Success(UrlEncode(GetId(u).value))
  {
    var enc := UrlEncode(GetId(u).value);
    var a := classBase[..|classBase| - 1];
    assert classBase == a + "/";
    assert v.text == a + "/" + enc;
    GetIdLastSegment(v, a, q, enc);
  }

  /** A numeric id survives normalization: normalizing the normalized URI changes nothing. */
  lemma NormalizeIdempotent(classBase: string, u: Uri, v: Uri, q: string)
    requires EndsWith(classBase, "/")
    requires GetId(u).Success? && AllDigits(GetId(u).value)
    requires v.text == NormalizeUri(classBase, u).value
    requires v.path == Some(q + "/" + GetId(u).value)
    ensures GetId(v) == GetId(u)
    ensures NormalizeUri(classBase, v) == NormalizeUri(classBase, u)
  {
    UrlEncodeSafe(GetId(u).value);
    NormalizeKeepsId(classBase, u, v, q);
  }
}
