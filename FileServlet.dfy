// The file servlet (de.mpg.imeji.presentation.storage.FileServlet): which
// file a GET on /file answers with, and how a byte-range request is cut
// into a partial response. The storage, the content lookup and the
// request's parameters are inputs; the bytes themselves are not modelled.
module FileServlet {
  import opened Wrappers
  import opened JavaStrings

  /** `MAX_RANGE_LENGTH`: the most bytes one partial response carries. */
  const MaxRangeLength: int := 1000000

  /** The URL the storage gives for a file without thumbnail. */
  const NoThumbnailUrl: string := "NO_THUMBNAIL_URL"

  /** The exceptions that can leave `doGet`'s body. */
  datatype Error =
    | NumberFormat | IndexOutOfBounds | NullPointer
    | NotAllowed | AuthenticationError | NotFound | StorageError

  // ---------------------------------------------------------------------
  // The Range header

  /** The header without "bytes=", trimmed and split at '-'. */
  function RangeFields(range: string): seq<string> {
    Split(Trim(Replace(range, "bytes=", "")), "-")
  }

  lemma RangeFieldsNoDash(range: string)
    ensures forall k :: 0 <= k < |RangeFields(range)| ==> '-' !in RangeFields(range)[k]
  {
    SplitNoChar(Trim(Replace(range, "bytes=", "")), '-');
  }

  /** A field without '-' parses, if at all, to a non-negative number. */
  lemma ParseIntNoDash(f: string)
    requires '-' !in f
    ensures ParseInt(f).Some? ==> ParseInt(f).value >= 0
  {
    if |f| > 0 {
      assert f[0] != '-';
    }
  }

  /** `parseRangeStart`: the first field as an int. */
  function ParseRangeStart(range: string): (r: Result<int, Error>)
    ensures r.Success? ==> 0 <= r.value <= IntMax
  {
    var f := RangeFields(range);
    if |f| == 0 then Failure(IndexOutOfBounds)
    else
      RangeFieldsNoDash(range);
      ParseIntNoDash(f[0]);
      match ParseInt(f[0])
      case None => Failure(NumberFormat)
      case Some(v) => Success(v)
  }

  /** `parseRangeEnd`: the second field as an int, -1 when there is none. */
  function ParseRangeEnd(range: string): (r: Result<int, Error>)
    ensures r.Success? ==> -1 <= r.value <= IntMax
    ensures |RangeFields(range)| < 2 ==> r == Success(-1)
  {
    var f := RangeFields(range);
    if |f| < 2 then Success(-1)
    else
      RangeFieldsNoDash(range);
      ParseIntNoDash(f[1]);
      match ParseInt(f[1])
      case None => Failure(NumberFormat)
      case Some(v) => Success(v)
  }

  /** The text after the "bytes=" prefix is left alone when it has no 'b'. */
  lemma StripUnit(x: string)
    requires 'b' !in x && (|x| > 0 ==> !IsSpace(x[0]) && !IsSpace(x[|x| - 1]))
    ensures Trim(Replace("bytes=" + x, "bytes=", "")) == x
  {
    var s := "bytes=" + x;
    assert s[..6] == "bytes=" && s[6..] == x;
    ReplaceAbsent(x, "bytes=", "");
    TrimNoSpace(x);
  }

  /** The fields of "bytes=" followed by a text without 'b' and without surrounding spaces. */
  lemma RangeFieldsOf(x: string)
    requires 'b' !in x && (|x| > 0 ==> !IsSpace(x[0]) && !IsSpace(x[|x| - 1]))
    ensures RangeFields("bytes=" + x) == Split(x, "-")
  {
    StripUnit(x);
  }

  /** Digits, a dash and digits hold no 'b'. */
  lemma DigitsDashDigits(a: string, b: string)
    requires AllDigits(a) && AllDigits(b)
    ensures 'b' !in a + "-" + b
  {
    var x := a + "-" + b;
    forall i | 0 <= i < |x| ensures x[i] != 'b' {
      if i < |a| { assert x[i] == a[i]; }
      else if i > |a| { assert x[i] == b[i - |a| - 1]; }
    }
  }

  /** A closed range "bytes=a-b" gives back a and b. */
  lemma ParseRangeClosed(a: nat, b: nat)
    requires a <= IntMax && b <= IntMax
    ensures ParseRangeStart("bytes=" + NatToString(a) + "-" + NatToString(b)) == Success(a)
    ensures ParseRangeEnd("bytes=" + NatToString(a) + "-" + NatToString(b)) == Success(b)
  {
    var sa, sb := NatToString(a), NatToString(b);
    var x := sa + "-" + sb;
    assert "bytes=" + sa + "-" + sb == "bytes=" + x;
    DigitsDashDigits(sa, sb);
    assert x[0] == sa[0] && x[|x| - 1] == sb[|sb| - 1];
    RangeFieldsOf(x);
    assert x == sa + ['-'] + sb;
    SplitOnce(sa, '-', sb);
    assert RangeFields("bytes=" + x) == [sa, sb];
    ParseNatToString(a, IntMin, IntMax);
    ParseNatToString(b, IntMin, IntMax);
  }

  /** A text without '-' followed by one '-' splits into that text alone. */
  lemma SplitTrailingDash(a: string)
    requires '-' !in a && a != ""
    ensures Split(a + "-", "-") == [a]
  {
    var x := a + "-";
    assert x == a + ['-'] + "";
    FieldsAppend(a, '-', "");
    NoCharNoContains(a, '-');
    assert Fields(x, "-") == [a, ""];
    assert x[|x| - 1..|x|] == "-";
    ContainsAt(x, "-", |x| - 1);
    assert DropTrailingEmpty([a, ""]) == DropTrailingEmpty([a]) == [a];
  }

  /** An open range "bytes=a-" gives back a, and -1 for the end. */
  lemma ParseRangeOpen(a: nat)
    requires a <= IntMax
    ensures ParseRangeStart("bytes=" + NatToString(a) + "-") == Success(a)
    ensures ParseRangeEnd("bytes=" + NatToString(a) + "-") == Success(-1)
  {
    var sa := NatToString(a);
    var x := sa + "-";
    assert "bytes=" + sa + "-" == "bytes=" + x;
    DigitsDashDigits(sa, "");
    assert sa + "-" + "" == x;
    assert x[0] == sa[0];
    RangeFieldsOf(x);
    SplitTrailingDash(sa);
    assert RangeFields("bytes=" + x) == [sa];
    ParseNatToString(a, IntMin, IntMax);
  }

  /** A suffix range "bytes=-b" has an empty first field, which does not parse. */
  lemma ParseRangeSuffix(b: nat)
    ensures ParseRangeStart("bytes=-" + NatToString(b)) == Failure(NumberFormat)
  {
    var sb := NatToString(b);
    var x := "-" + sb;
    assert "bytes=-" + sb == "bytes=" + x;
    DigitsDashDigits("", sb);
    assert "" + "-" + sb == x;
    assert x[|x| - 1] == sb[|sb| - 1];
    RangeFieldsOf(x);
    assert x == "" + ['-'] + sb;
    SplitOnce("", '-', sb);
  }

  // ---------------------------------------------------------------------
  // The partial response

  /** What a partial response sets: status, Content-Length, Content-Range and the part read. */
  datatype Partial = Partial(status: int, contentLength: int, contentRange: string, offset: int, length: int)

  /** The Content-Range value "bytes first-last/complete" of section 4.2 of RFC 7233. */
  function ContentRange(first: int, last: int, complete: int): string {
    "bytes " + IntToString(first) + "-" + IntToString(last) + "/" + IntToString(complete)
  }

  /**
   * `doRangeRequest` as written. Firefox gets the requested range as it is;
   * the others get up to MAX_RANGE_LENGTH bytes from the start, whatever
   * end they asked for. The sums are int arithmetic and wrap.
   */
  function DoRangeRequestAsWritten(start: int, requestedEnd: int, contentLength: int, firefox: bool): Partial
    requires 0 <= start <= IntMax && -1 <= requestedEnd <= IntMax && 0 <= contentLength <= LongMax
  {
    if firefox then
      // the conditional binds tighter than the concatenation
      Partial(206, contentLength - start,
        "bytes " + IntToString(start) + "-" + (if requestedEnd > 0 then IntToString(requestedEnd) else "/" + IntToString(contentLength)),
        start, ToInt32(requestedEnd + 1 - start))
    else
      var sum := ToInt32(start + MaxRangeLength);
      var end := ToInt32(ToInt32(if sum > contentLength then contentLength else sum) - 1);
      Partial(206, ToInt32(end - start + 1),
        "bytes " + IntToString(start) + "-" + (if end > 0 then IntToString(end) else "") + "/" + IntToString(contentLength),
        start, ToInt32(end + 1 - start))
  }

  /**
   * For a start inside the file (and far enough from the int limit) the
   * part read is the next MAX_RANGE_LENGTH bytes, cut at the end of the
   * file, and Content-Length agrees with it.
   */
  lemma RangeAsWrittenInside(start: int, requestedEnd: int, contentLength: int)
    requires 0 <= start < contentLength <= LongMax && start + MaxRangeLength <= IntMax
    requires -1 <= requestedEnd <= IntMax
    ensures var r := DoRangeRequestAsWritten(start, requestedEnd, contentLength, false);
      var last := (if start + MaxRangeLength > contentLength then contentLength else start + MaxRangeLength) - 1;
      r.status == 206 && r.offset == start && r.length == last - start + 1 == r.contentLength &&
      1 <= r.length <= MaxRangeLength && r.offset + r.length <= contentLength &&
      (last > 0 ==> r.contentRange == ContentRange(start, last, contentLength))
  {
  }

  /** The end the client asked for plays no part outside Firefox. */
  lemma RangeAsWrittenIgnoresEnd(start: int, e1: int, e2: int, contentLength: int)
    requires 0 <= start <= IntMax && -1 <= e1 <= IntMax && -1 <= e2 <= IntMax && 0 <= contentLength <= LongMax
    ensures DoRangeRequestAsWritten(start, e1, contentLength, false) == DoRangeRequestAsWritten(start, e2, contentLength, false)
  {
  }

  /**
   * A start at or past the end of the file is still answered 206, with a
   * Content-Length of zero or less and a part of that length.
   */
  lemma RangeAsWrittenPastEnd(start: int, contentLength: int)
    requires 0 <= contentLength <= start && start + MaxRangeLength <= IntMax
    ensures var r := DoRangeRequestAsWritten(start, -1, contentLength, false);
      r.status == 206 && r.contentLength == contentLength - start <= 0 && r.length == r.contentLength
  {
  }

  /** A one-byte file asked from byte 0 gets "bytes 0-/1": the last position is dropped. */
  lemma RangeAsWrittenLastZero()
    ensures DoRangeRequestAsWritten(0, -1, 1, false).contentRange == "bytes 0-/1"
  {
    assert IntToString(0) == "0" && IntToString(1) == "1";
  }

  /** A partial response, or 416 with "bytes *\/complete" when the start lies past the end (section 4.4 of RFC 7233). */
  datatype RangeOutcome = Satisfiable(part: Partial) | NotSatisfiable(status: int, contentRange: string)

  /**
   * The range response as evidently intended: up to MAX_RANGE_LENGTH bytes
   * from the start, cut at the end of the file, with the last position
   * always printed, and 416 when no byte of the file is at the start.
   */
  function RangeResponse(start: int, contentLength: int): (r: RangeOutcome)
    requires 0 <= start
    ensures r.NotSatisfiable? <==> start >= contentLength
    ensures r.NotSatisfiable? ==> r.status == 416 && r.contentRange == "bytes */" + IntToString(contentLength)
    ensures r.Satisfiable? ==>
      var p := r.part;
      p.status == 206 && p.offset == start && 1 <= p.length <= MaxRangeLength &&
      p.offset + p.length <= contentLength && p.contentLength == p.length &&
      p.contentRange == ContentRange(start, start + p.length - 1, contentLength) &&
      (p.length == MaxRangeLength || p.offset + p.length == contentLength)
  {
    if start >= contentLength then NotSatisfiable(416, "bytes */" + IntToString(contentLength))
    else
      var last := (if start + MaxRangeLength > contentLength then contentLength else start + MaxRangeLength) - 1;
      Satisfiable(Partial(206, last - start + 1, ContentRange(start, last, contentLength), start, last - start + 1))
  }

  /** Where the code as written behaves, the corrected response is the same. */
  lemma RangeResponseAgrees(start: int, requestedEnd: int, contentLength: int)
    requires 0 <= start < contentLength <= LongMax && start + MaxRangeLength <= IntMax
    requires -1 <= requestedEnd <= IntMax
    requires contentLength > 1 || start > 0
    ensures RangeResponse(start, contentLength) == Satisfiable(DoRangeRequestAsWritten(start, requestedEnd, contentLength, false))
  {
    RangeAsWrittenInside(start, requestedEnd, contentLength);
  }

  // ---------------------------------------------------------------------
  // doGet

  /** The request's parameters and headers; `item` is the item URI, from `item` or built from `itemId`. */
  datatype Request = Request(
    id: Option<string>, content: Option<string>, item: Option<string>, resolution: Option<string>,
    range: Option<string>, userAgent: Option<string>, requestUri: string)

  /** The URLs of the resolutions of a content. */
  datatype Content = Content(thumbnail: string, preview: string, full: string, original: string)

  /** `retrieveUrlOfContent`: the content is read first, then the resolution chosen (a missing one is a NullPointerException). */
  function RetrieveUrlOfContent(content: Result<Content, Error>, resolution: Option<string>): (r: Result<string, Error>)
    ensures content.Failure? ==> r == Failure(content.error)
    ensures content.Success? && resolution.None? ==> r == Failure(NullPointer)
    ensures content.Success? && resolution.Some? ==>
      var c := content.value;
      r.Success? &&
      (resolution.value == "thumbnail" ==> r.value == c.thumbnail) &&
      (resolution.value == "preview" ==> r.value == c.preview) &&
      (resolution.value == "full" ==> r.value == c.full) &&
      (resolution.value !in {"thumbnail", "preview", "full"} ==> r.value == c.original)
  {
    match content
    case Failure(e) => Failure(e)
    case Success(c) =>
      match resolution
      case None => Failure(NullPointer)
      case Some(res) =>
        if res == "thumbnail" then Success(c.thumbnail)
        else if res == "preview" then Success(c.preview)
        else if res == "full" then Success(c.full)
        else Success(c.original)
  }

  /** The URL of the file asked for: `id`, else the content's, else the item's content's, else the request URI under the domain. */
  function ResolveUrl(req: Request, domain: string, contents: string -> Result<Content, Error>,
                      contentOfItem: string -> Result<string, Error>): Result<string, Error>
  {
    if req.id.Some? then Success(req.id.value)
    else if req.content.Some? then RetrieveUrlOfContent(contents(req.content.value), req.resolution)
    else if req.item.Some? then
      match contentOfItem(req.item.value)
      case Failure(e) => Failure(e)
      case Success(c) => RetrieveUrlOfContent(contents(c), req.resolution)
    else Success(domain + req.requestUri)
  }

  /** What the servlet sends back. */
  datatype Outcome =
    | Silent                       // a security or not-found error: nothing is written
    | EmptyIcon                    // the empty thumbnail
    | WholeFile(url: string)
    | PartialFile(url: string, part: Partial)
    | RangeNotSatisfiable(url: string, status: int, contentRange: string)

  /** The catch block: security and not-found errors send nothing, all others the empty thumbnail. */
  function Caught(e: Error): Outcome {
    if e == NotAllowed || e == AuthenticationError || e == NotFound then Silent else EmptyIcon
  }

  /**
   * `doGet`, with the corrected range response. `login` is the exception
   * `getUser` throws, if any (the login of a request without session);
   * `allowed` is `isAllowedToViewFile` for the request's user, which
   * `checkSecurity` consults before a stored file or part is read.
   * `storedLength` is the storage's content length of a URL; reading the
   * file itself is not modelled.
   */
  function DoGet(req: Request, domain: string, login: Option<Error>, allowed: string -> bool,
                 contents: string -> Result<Content, Error>,
                 contentOfItem: string -> Result<string, Error>,
                 storedLength: string -> Result<int, Error>): (r: Outcome)
    ensures login.Some? ==> r == Caught(login.value)
    ensures r.PartialFile? || r.RangeNotSatisfiable? ==>
      req.range.Some? && req.userAgent.Some? && !Contains(req.userAgent.value, "Firefox")
    ensures r.PartialFile? ==> 1 <= r.part.length <= MaxRangeLength && r.part.contentLength == r.part.length
    ensures r.WholeFile? || r.PartialFile? || r.RangeNotSatisfiable? ==>
      login.None? && ResolveUrl(req, domain, contents, contentOfItem) == Success(r.url) && allowed(r.url)
    ensures login.None? && ResolveUrl(req, domain, contents, contentOfItem).Failure? ==>
      r == Caught(ResolveUrl(req, domain, contents, contentOfItem).error)
    ensures req.userAgent.None? ==> r == Silent || r == EmptyIcon
    ensures var u := ResolveUrl(req, domain, contents, contentOfItem);
      (login.None? && u.Success? && u.value != NoThumbnailUrl && storedLength(u.value).Success? &&
       req.userAgent.Some? && (req.range.None? || Contains(req.userAgent.value, "Firefox"))) ==>
        r == (if allowed(u.value) then WholeFile(u.value) else Silent)
  {
    if login.Some? then Caught(login.value)
    else
    match ResolveUrl(req, domain, contents, contentOfItem)
    case Failure(e) => Caught(e)
    case Success(url) =>
      match storedLength(url)
      case Failure(e) => Caught(e)
      case Success(len) =>
        // isFirefox dereferences the User-Agent header
        if req.userAgent.None? then EmptyIcon
        else if url == NoThumbnailUrl then EmptyIcon
        else if req.range.Some? && !Contains(req.userAgent.value, "Firefox") then
          match (ParseRangeStart(req.range.value), ParseRangeEnd(req.range.value))
          case (Success(start), Success(_)) =>
            if !allowed(url) then Caught(NotAllowed)
            else
              (match RangeResponse(start, len)
               case Satisfiable(p) => PartialFile(url, p)
               case NotSatisfiable(status, cr) => RangeNotSatisfiable(url, status, cr))
          case _ => EmptyIcon
        else if allowed(url) then WholeFile(url)
        else Caught(NotAllowed)
  }
}
