// The helpers of the web pages' script (resources/js/default.js): a suffix
// test, the clean-up of numbers typed into forms, the button lock against
// double submits, and the simple-search menu with its selected context.
module DefaultJs {
  import opened Wrappers
  import opened JavaStrings
  import ObjectHelper

  // ---------------------------------------------------------------------
  // endsWith

  /** JavaScript's `s.indexOf(t, from)`: a negative start counts as 0, one past the end as the end. */
  function JsIndexOf(s: string, t: string, from: int): (r: int)
    ensures r == -1 || OccursAt(s, t, r)
  {
    IndexOfFrom(s, t, if from < 0 then 0 else if from > |s| then |s| else from)
  }

  /** `endsWith`: the suffix is searched from the only place it can end the text. */
  function JsEndsWith(str: string, suffix: string): bool {
    JsIndexOf(str, suffix, |str| - |suffix|) != -1
  }

  /** The search finds the suffix exactly when the text ends with it, a longer suffix included. */
  lemma JsEndsWithSpec(str: string, suffix: string)
    ensures JsEndsWith(str, suffix) <==> EndsWith(str, suffix)
  {
    if |suffix| <= |str| {
      var from := |str| - |suffix|;
      if str[from..] != suffix {
        assert IndexOfFrom(str, suffix, from + 1) == -1;
      }
    } else {
      assert IndexOfFrom(str, suffix, 0) == -1;
    }
  }

  // ---------------------------------------------------------------------
  // Numbers typed into forms

  /** `formatNumber`: the first ',' becomes '.', then the first ' ' goes (a string pattern replaces once). */
  function FormatNumber(n: string): (r: string)
    ensures |r| <= |n|
  {
    ReplaceFirst(ReplaceFirst(n, ",", "."), " ", "")
  }

  /** A number without commas and spaces is left as it is. */
  lemma FormatNumberPlain(n: string)
    requires ',' !in n && ' ' !in n
    ensures FormatNumber(n) == n
  {
    NoCharNoContains(n, ',');
    NoCharNoContains(n, ' ');
  }

  /** The first comma becomes the decimal point; a second one stays as it is. */
  lemma FormatNumberFirstComma(a: string, b: string)
    requires ',' !in a && ' ' !in a && ' ' !in b
    ensures FormatNumber(a + "," + b) == a + "." + b
  {
    var s := a + "," + b;
    assert s[..|a|] == a && s[|a| + 1..] == b && s[|a|] == ',';
    IndexOfSingle(s, ',');
    IndexOfCharIs(s, ',', |a|);
    var t := a + "." + b;
    assert ' ' !in t;
    NoCharNoContains(t, ' ');
  }

  /** The first space goes; a second one stays. */
  lemma FormatNumberFirstSpace(a: string, b: string)
    requires ',' !in a && ',' !in b && ' ' !in a
    ensures FormatNumber(a + " " + b) == a + b
  {
    var s := a + " " + b;
    assert ',' !in s;
    NoCharNoContains(s, ',');
    assert s[..|a|] == a && s[|a| + 1..] == b && s[|a|] == ' ';
    IndexOfSingle(s, ' ');
    IndexOfCharIs(s, ' ', |a|);
  }

  /**
   * `validateInputNumber`: the field gets the formatted value, or "" when
   * `isNumber` (which formats once more) rejects it. Whether a text is a
   * finite JavaScript number is the parameter `numeric`.
   */
  function ValidateInputNumber(value: string, numeric: string -> bool): (r: string)
    ensures r == "" || r == FormatNumber(value)
    ensures !numeric(FormatNumber(FormatNumber(value))) ==> r == ""
    ensures r != "" ==> numeric(FormatNumber(r))
  {
    var formatted := FormatNumber(value);
    if numeric(FormatNumber(formatted)) then formatted else ""
  }

  /** A value that is kept is kept again: validating twice is validating once. */
  lemma ValidateInputNumberKept(value: string, numeric: string -> bool)
    requires ValidateInputNumber(value, numeric) != ""
    requires ',' !in FormatNumber(value) && ' ' !in FormatNumber(value)
    ensures ValidateInputNumber(ValidateInputNumber(value, numeric), numeric) == ValidateInputNumber(value, numeric)
  {
    var formatted := FormatNumber(value);
    FormatNumberPlain(formatted);
    assert ValidateInputNumber(value, numeric) == formatted;
  }

  // ---------------------------------------------------------------------
  // handleDisableButton

  /** The element that started a request (`data.source`). */
  class Button {
    var kind: string
    var disabled: bool

    constructor(kind: string, disabled: bool)
      ensures this.kind == kind && this.disabled == disabled
    {
      this.kind := kind;
      this.disabled := disabled;
    }
  }

  /**
   * `handleDisableButton`: a submit button is disabled when its request
   * begins and enabled when it completes; anything else is left alone.
   */
  method HandleDisableButton(source: Button, status: string)
    modifies source
    ensures source.kind == old(source.kind)
    ensures source.kind != "submit" ==> source.disabled == old(source.disabled)
    ensures source.kind == "submit" && status == "begin" ==> source.disabled
    ensures source.kind == "submit" && status == "complete" ==> !source.disabled
    ensures status != "begin" && status != "complete" ==> source.disabled == old(source.disabled)
  {
    if source.kind != "submit" {
      return;
    }
    if status == "begin" {
      source.disabled := true;
    } else if status == "complete" {
      source.disabled := false;
    }
  }

  // ---------------------------------------------------------------------
  // The simple search

  /** The characters `encodeURIComponent` leaves as they are. */
  predicate UriUnreserved(c: char) {
    ObjectHelper.UrlSafe(c) || c == '!' || c == '~' || c == '\'' || c == '(' || c == ')'
  }

  /** `encodeURIComponent`: every other character as the "%XY" groups of its UTF-8 bytes. */
  function EncodeUriComponent(s: string): (r: string)
    ensures |r| >= |s|
    ensures forall i :: 0 <= i < |r| ==> UriUnreserved(r[i]) || r[i] == '%'
  {
    if |s| == 0 then ""
    else
      var head := if UriUnreserved(s[0]) then [s[0]] else ObjectHelper.PercentBytes(ObjectHelper.Utf8(s[0]));
      head + EncodeUriComponent(s[1..])
  }

  /** An encoded query holds none of the characters that delimit a URL's parameters. */
  lemma EncodedDelimiters(s: string)
    ensures '=' !in EncodeUriComponent(s) && '&' !in EncodeUriComponent(s)
    ensures '?' !in EncodeUriComponent(s) && '#' !in EncodeUriComponent(s)
  {
    var r := EncodeUriComponent(s);
    forall i | 0 <= i < |r| ensures r[i] != '=' && r[i] != '&' && r[i] != '?' && r[i] != '#' {
      NotDelimiter(r[i]);
    }
  }

  /** No unreserved character and not '%' delimits a URL's parameters. */
  lemma NotDelimiter(c: char)
    requires UriUnreserved(c) || c == '%'
    ensures c != '=' && c != '&' && c != '?' && c != '#'
  {
  }

  /**
   * `goToSearch`: the URL of the `index`-th context (counting from 1) with
   * the encoded query appended as parameter "q", after '&' when the URL
   * already has a '?' and after '?' otherwise. Without such a context
   * there is no URL to read (a TypeError).
   */
  function GoToSearch(urls: seq<string>, index: int, text: string): (r: Option<string>)
    ensures r.Some? <==> 1 <= index <= |urls|
  {
    if 1 <= index <= |urls| then
      var url := urls[index - 1];
      var appendChar := if Contains(url, "?") then "&" else "?";
      Some(url + appendChar + "q=" + EncodeUriComponent(text))
    else None
  }

  /**
   * The search URL extends the context's URL by one separator, which is
   * '&' exactly when the URL already has a query, and it ends with the
   * encoded text as the value of its last parameter.
   */
  lemma GoToSearchUrl(urls: seq<string>, index: int, text: string)
    requires 1 <= index <= |urls|
    ensures var url := urls[index - 1];
      var r := GoToSearch(urls, index, text).value;
      StartsWith(r, url) && |r| > |url| &&
      (r[|url|] == '&' <==> Contains(url, "?")) && (r[|url|] == '?' <==> !Contains(url, "?")) &&
      AfterLast(r, '=') == EncodeUriComponent(text)
  {
    var url := urls[index - 1];
    var sep := if Contains(url, "?") then '&' else '?';
    var e := EncodeUriComponent(text);
    assert GoToSearch(urls, index, text).value == url + [sep] + "q=" + e;
    EncodedDelimiters(text);
    ParameterAppended(url, sep, e);
  }

  /** A URL followed by a separator and "q=" and a value without '=' starts with the URL and ends with the value. */
  lemma ParameterAppended(url: string, sep: char, e: string)
    requires '=' !in e
    ensures var r := url + [sep] + "q=" + e;
      StartsWith(r, url) && |r| > |url| && r[|url|] == sep && AfterLast(r, '=') == e
  {
    var r := url + [sep] + "q=" + e;
    assert r[..|url|] == url;
    assert r == (url + [sep] + "q") + ['='] + e;
    AfterLastAppend(url + [sep] + "q", '=', e);
  }

  /**
   * The context selected when a page is ready: the first (counting from 1)
   * whose URL contains the page's path, else the first one.
   */
  method SelectedSearchFor(urls: seq<string>, path: string) returns (r: int)
    ensures 1 <= r <= if |urls| == 0 then 1 else |urls|
    ensures r > 1 ==> Contains(urls[r - 1], path)
    ensures (exists k :: 0 <= k < |urls| && Contains(urls[k], path)) ==> Contains(urls[r - 1], path)
    ensures forall k :: 0 <= k < r - 1 ==> !Contains(urls[k], path)
    ensures (forall k :: 0 <= k < |urls| ==> !Contains(urls[k], path)) ==> r == 1
    ensures |urls| > 0 && Contains(urls[0], path) ==> r == 1
  {
    r := 1;
    var index := 0;
    while index < |urls|
      invariant 0 <= index <= |urls|
      invariant forall k :: 0 <= k < index ==> !Contains(urls[k], path)
    {
      if Contains(urls[index], path) {
        r := index + 1;
        return;
      }
      index := index + 1;
    }
  }

  /** The simple-search menu: the contexts' URLs and the selected one. */
  class SimpleSearch {
    const urls: seq<string>
    const numberOfContext: int
    var selectedSearch: int

    /** The selection stays on a context (on the first place when there is none). */
    predicate Valid()
      reads this
    {
      numberOfContext == |urls| && 1 <= selectedSearch && (selectedSearch <= numberOfContext || selectedSearch == 1)
    }

    /** The menu of a page that has just been loaded at `path`. */
    constructor(urls: seq<string>, path: string)
      ensures Valid() && this.urls == urls
      ensures (exists k :: 0 <= k < |urls| && Contains(urls[k], path)) ==> Contains(urls[selectedSearch - 1], path)
      ensures forall k :: 0 <= k < selectedSearch - 1 ==> !Contains(urls[k], path)
      ensures (forall k :: 0 <= k < |urls| ==> !Contains(urls[k], path)) ==> selectedSearch == 1
    {
      this.urls := urls;
      numberOfContext := |urls|;
      new;
      selectedSearch := SelectedSearchFor(urls, path);
    }

    /** `incrementSelectedSearch`: the next context, unless the last one is selected. */
    method IncrementSelectedSearch()
      requires Valid()
      modifies this
      ensures Valid()
      ensures old(selectedSearch) < numberOfContext ==> selectedSearch == old(selectedSearch) + 1
      ensures old(selectedSearch) >= numberOfContext ==> selectedSearch == old(selectedSearch)
    {
      if selectedSearch < numberOfContext {
        selectedSearch := selectedSearch + 1;
      }
    }

    /** `decrementSelectedSearch`: the previous context, unless the first one is selected. */
    method DecrementSelectedSearch()
      requires Valid()
      modifies this
      ensures Valid()
      ensures old(selectedSearch) > 1 ==> selectedSearch == old(selectedSearch) - 1
      ensures old(selectedSearch) <= 1 ==> selectedSearch == old(selectedSearch)
    {
      if selectedSearch > 1 {
        selectedSearch := selectedSearch - 1;
      }
    }

    /** `submitSimpleSearch`: the search page to open, none for an empty query. */
    method SubmitSimpleSearch(text: string) returns (r: Option<string>)
      requires Valid()
      ensures text == "" ==> r.None?
      ensures text != "" ==> r == GoToSearch(urls, selectedSearch, text)
      ensures text != "" && |urls| > 0 ==> r.Some?
    {
      if text != "" {
        r := GoToSearch(urls, selectedSearch, text);
      } else {
        r := None;
      }
    }
  }
}
