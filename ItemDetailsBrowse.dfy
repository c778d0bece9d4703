// Browsing from one item's detail page to the previous and the next item of
// the search it was opened from
// (de.mpg.imeji.presentation.item.details.ItemDetailsBrowse). The page knows
// the position of its item in the search result; it asks the search for a
// window of three results around that position and links to the neighbours.
module ItemDetailsBrowse {
  import opened Wrappers
  import opened JavaStrings
  import opened ObjectHelper

  /** The number of results asked for around the current one. */
  const Size: nat := 3

  // ---------------------------------------------------------------------
  // Positions and the search window

  /** `getOffset`: the result before the current position, or the first one. */
  function Offset(pos: int): (r: int)
    ensures 0 <= r
    ensures pos >= 1 ==> r == pos - 1
    ensures pos <= 1 ==> r == 0
  {
    if pos > 1 then pos - 1 else 0
  }

  /** The "pos" request parameter: -1 when absent, nothing (NumberFormatException) when it is not a Java int. */
  function PositionParameter(params: map<string, string>): (r: Option<int>)
    ensures "pos" !in params ==> r == Some(-1)
    ensures r.Some? ==> IntMin <= r.value <= IntMax
    ensures "pos" in params && params["pos"] == "" ==> r.None?
  {
    if "pos" in params then ParseInt(params["pos"]) else Some(-1)
  }

  /**
   * `searchPreviousAndNextItem`: the window of results at the offset when a
   * position is known; nothing when there is none or the search fails
   * (UnprocessableError, caught). The search is a parameter: it maps an
   * offset to the results found there, the query and sorting being fixed.
   */
  function SearchPreviousAndNextItem(pos: int, search: int -> Option<seq<Uri>>): (r: seq<Uri>)
    ensures pos <= -1 ==> r == []
    ensures pos > -1 && search(Offset(pos)).Some? ==> r == search(Offset(pos)).value
  {
    if pos > -1 then
      match search(Offset(pos))
      case None => []
      case Some(found) => found
    else []
  }

  /** `List.indexOf`: the first index holding `x`, -1 when there is none. */
  function IndexOfItem<T(==)>(s: seq<T>, x: T): (r: int)
    ensures -1 <= r < |s|
    ensures r >= 0 ==> s[r] == x && forall j :: 0 <= j < r ==> s[j] != x
    ensures r == -1 <==> x !in s
  {
    if |s| == 0 then -1
    else if s[0] == x then 0
    else
      var k := IndexOfItem(s[1..], x);
      if k == -1 then -1 else k + 1
  }

  /** The first occurrence is the one at `i` when nothing before `i` is `x`. */
  lemma IndexOfItemIs<T>(s: seq<T>, x: T, i: int)
    requires 0 <= i < |s| && s[i] == x && forall j :: 0 <= j < i ==> s[j] != x
    ensures IndexOfItem(s, x) == i
  {
  }

  /**
   * `nextItem`: the result after the current one, none when the current
   * one is last; when the current one is missing, `indexOf` is -1 and the
   * first result is taken.
   */
  function NextItem<T(==)>(items: seq<T>, current: T): (r: Option<T>)
    ensures r.Some? <==> (current in items ==> IndexOfItem(items, current) < |items| - 1) && items != []
    ensures current in items && r.Some? ==> r.value == items[IndexOfItem(items, current) + 1]
    ensures current !in items && items != [] ==> r == Some(items[0])
  {
    var i := IndexOfItem(items, current);
    if i < |items| - 1 then Some(items[i + 1]) else None
  }

  /** `previousItem`: the first result, whenever the current one is found after it. */
  function PreviousItem<T(==)>(items: seq<T>, current: T): (r: Option<T>)
    ensures r.Some? <==> current in items && items[0] != current
    ensures r.Some? ==> r.value == items[0]
  {
    var i := IndexOfItem(items, current);
    if i > 0 then Some(items[0]) else None
  }

  /** The results of a search from `o` on: at most `Size` of them. */
  function Window<T>(all: seq<T>, o: nat): (r: seq<T>)
    ensures |r| <= Size
  {
    if o >= |all| then [] else if o + Size <= |all| then all[o..o + Size] else all[o..]
  }

  /**
   * The window at the offset of a correct position holds the neighbours:
   * with no result listed twice and the current one at `pos`, the next item
   * is the result after it and the previous item the one before it (taking
   * the window's first result is right, because the current one is never
   * deeper than its second place).
   */
  lemma BrowseWindow<T>(all: seq<T>, pos: int, current: T)
    requires forall i, j :: 0 <= i < j < |all| ==> all[i] != all[j]
    requires 0 <= pos < |all| && all[pos] == current
    ensures NextItem(Window(all, Offset(pos)), current) == if pos + 1 < |all| then Some(all[pos + 1]) else None
    ensures PreviousItem(Window(all, Offset(pos)), current) == if pos > 0 then Some(all[pos - 1]) else None
  {
    var o := Offset(pos);
    var w := Window(all, o);
    assert o <= pos <= o + 1;
    assert w[pos - o] == current;
    forall j | 0 <= j < pos - o ensures w[j] != current {
      assert w[j] == all[o + j];
    }
    IndexOfItemIs(w, current, pos - o);
  }

  // ---------------------------------------------------------------------
  // Links

  /** The page addresses of the application (`Navigation`). */
  datatype Navigation = Navigation(collectionUrl: string, itemUrl: string, albumUrl: string)

  /** The items of a container: its page, its id, then "/item/". */
  function ContainerBase(url: string, containerUri: Option<Uri>): (r: Result<string, Error>)
    ensures containerUri.None? ==> r == Failure(NullPointer)
    ensures containerUri.Some? && GetId(containerUri.value).Success? ==>
      r == Success(url + GetId(containerUri.value).value + "/item/")
    ensures containerUri.Some? && GetId(containerUri.value).Failure? ==> r == Failure(GetId(containerUri.value).error)
  {
    match containerUri
    case None => Failure(NullPointer)
    case Some(u) =>
      match GetId(u)
      case Failure(e) => Failure(e)
      case Success(id) => Success(url + id + "/item/")
  }

  /**
   * The first part of `init`: the base of the links for a detail page
   * opened in a collection, in the item browser or in an album; "" for
   * any other kind of page. The kind is compared by reference in the
   * source; the callers pass the literals, so equal texts are the same.
   */
  function BaseUrl(kind: string, containerUri: Option<Uri>, nav: Navigation): (r: Result<string, Error>)
    ensures kind == "item" ==> r == Success(nav.itemUrl)
    ensures kind == "collection" ==> r == ContainerBase(nav.collectionUrl, containerUri)
    ensures kind == "album" ==> r == ContainerBase(nav.albumUrl, containerUri)
    ensures kind != "item" && kind != "collection" && kind != "album" ==> r == Success("")
  {
    if kind == "collection" then ContainerBase(nav.collectionUrl, containerUri)
    else if kind == "item" then Success(nav.itemUrl)
    else if kind == "album" then ContainerBase(nav.albumUrl, containerUri)
    else Success("")
  }

  /** A link to item `id` that carries the search and the new position. */
  function Link(base: string, id: string, q: string, fq: string, filter: string, pos: int): (r: string)
    ensures StartsWith(r, base + id + "?q=")
    ensures EndsWith(r, "&pos=" + IntToString(pos))
  {
    var head := base + id + "?q=";
    var tail := "&pos=" + IntToString(pos);
    var r := head + q + "&fq=" + fq + "&filter=" + filter + tail;
    assert r[..|head|] == head;
    assert r[|r| - |tail|..] == tail;
    r
  }

  /** Everything after the link's last '=' is its position, which reads back as a Java int. */
  lemma LinkPosition(base: string, id: string, q: string, fq: string, filter: string, pos: int)
    ensures AfterLast(Link(base, id, q, fq, filter, pos), '=') == IntToString(pos)
    ensures IntMin <= pos <= IntMax ==> ParseInt(AfterLast(Link(base, id, q, fq, filter, pos), '=')) == Some(pos)
  {
    var s := IntToString(pos);
    assert '=' !in s by {
      var d := NatToString(if pos < 0 then -pos else pos);
      assert forall i :: 0 <= i < |d| ==> IsDigit(d[i]);
      assert s == d || s == "-" + d;
    }
    var a := base + id + "?q=" + q + "&fq=" + fq + "&filter=" + filter + "&pos";
    assert Link(base, id, q, fq, filter, pos) == a + ['='] + s;
    AfterLastAppend(a, '=', s);
    if IntMin <= pos <= IntMax {
      if pos >= 0 {
        ParseNatToString(pos, IntMin, IntMax);
      } else {
        ParseNegative(-pos);
      }
    }
  }

  /** A negative Java int reads back from its text. */
  lemma ParseNegative(n: nat)
    requires 0 < n <= -IntMin
    ensures ParseInt(IntToString(-(n as int))) == Some(-(n as int))
  {
    var s := IntToString(-(n as int));
    var d := NatToString(n);
    assert s == "-" + d;
    assert s[1..] == d;
    NatToStringValue(n);
    AsciiJavaDigits(d);
  }

  /** The link to an item when there is one; the failures of `getId` and of the base escape. */
  function LinkTo(base: Result<string, Error>, item: Option<Uri>, q: string, fq: string, filter: string, pos: int)
    : (r: Result<Option<string>, Error>)
    ensures base.Failure? ==> r == Failure(base.error)
    ensures base.Success? && item.None? ==> r == Success(None)
    ensures base.Success? && item.Some? && GetId(item.value).Failure? ==> r == Failure(GetId(item.value).error)
    ensures base.Success? && item.Some? && GetId(item.value).Success? ==>
      r == Success(Some(Link(base.value, GetId(item.value).value, q, fq, filter, pos)))
  {
    match base
    case Failure(e) => Failure(e)
    case Success(b) =>
      match item
      case None => Success(None)
      case Some(u) =>
        match GetId(u)
        case Failure(e) => Failure(e)
        case Success(id) => Success(Some(Link(b, id, q, fq, filter, pos)))
  }

  /** Without a position nothing is searched, so neither link exists. */
  lemma NoPositionNoLinks(current: Uri, search: int -> Option<seq<Uri>>, base: Result<string, Error>,
                          q: string, fq: string, filter: string, pos: int)
    requires pos <= -1
    ensures var items := SearchPreviousAndNextItem(pos, search);
      NextItem(items, current).None? && PreviousItem(items, current).None? &&
      var n := LinkTo(base, NextItem(items, current), q, fq, filter, ToInt32(pos + 1));
      var p := LinkTo(base, PreviousItem(items, current), q, fq, filter, ToInt32(pos - 1));
      !(n.Success? && n.value.Some?) && !(p.Success? && p.value.Some?)
  {
  }

  /** The value of a request parameter, "" when it is absent. */
  function Parameter(params: map<string, string>, name: string): string {
    if name in params then params[name] else ""
  }

  class ItemDetailsBrowse {
    var query: string
    var facetQuery: string
    var filterQuery: string
    const containerUri: Option<Uri>
    const currentPosition: int
    const currentItem: Uri
    var next: Option<string>
    var previous: Option<string>

    /**
     * The browsing of a detail page: the encoded queries, the position
     * read beforehand from the request (`PositionParameter`; a
     * NumberFormatException there ends the constructor), the window of
     * results searched around it and the links `init` derives from them.
     */
    constructor(item: Uri, kind: string, containerUri: Option<Uri>, params: map<string, string>,
                currentPosition: int, nav: Navigation, search: int -> Option<seq<Uri>>)
      requires IntMin <= currentPosition <= IntMax
      ensures query == UrlEncode(Parameter(params, "q")) && facetQuery == UrlEncode(Parameter(params, "fq"))
      ensures filterQuery == UrlEncode(Parameter(params, "filter"))
      ensures this.containerUri == containerUri && this.currentPosition == currentPosition && currentItem == item
      ensures var items := SearchPreviousAndNextItem(currentPosition, search);
        var base := BaseUrl(kind, containerUri, nav);
        var n := LinkTo(base, NextItem(items, item), query, facetQuery, filterQuery, ToInt32(currentPosition + 1));
        var p := LinkTo(base, PreviousItem(items, item), query, facetQuery, filterQuery, ToInt32(currentPosition - 1));
        next == (if n.Success? then n.value else None) &&
        previous == (if n.Success? && p.Success? then p.value else None)
      ensures currentPosition == -1 ==> next.None? && previous.None?
    {
      query := UrlEncode(Parameter(params, "q"));
      facetQuery := UrlEncode(Parameter(params, "fq"));
      filterQuery := UrlEncode(Parameter(params, "filter"));
      this.containerUri := containerUri;
      currentItem := item;
      this.currentPosition := currentPosition;
      next := None;
      previous := None;
      new;
      var items := SearchPreviousAndNextItem(currentPosition, search);
      Init(items, kind, containerUri, nav);
    }

    /**
     * `init`: the base of the links, then the link to the next item and
     * the link to the previous one, each carrying the position one further.
     * An exception stops it where it occurs, leaving the later links as
     * they were.
     */
    method Init(items: seq<Uri>, kind: string, containerUri: Option<Uri>, nav: Navigation)
      modifies this
      ensures var base := BaseUrl(kind, containerUri, nav);
        var n := LinkTo(base, NextItem(items, currentItem), query, facetQuery, filterQuery, ToInt32(currentPosition + 1));
        var p := LinkTo(base, PreviousItem(items, currentItem), query, facetQuery, filterQuery, ToInt32(currentPosition - 1));
        next == (if n.Success? && n.value.Some? then n.value else old(next)) &&
        previous == (if n.Success? && p.Success? && p.value.Some? then p.value else old(previous))
      ensures query == old(query) && facetQuery == old(facetQuery) && filterQuery == old(filterQuery)
    {
      var base := BaseUrl(kind, containerUri, nav);
      if base.Failure? {
        return;
      }
      var nextItem := NextItem(items, currentItem);
      var previousItem := PreviousItem(items, currentItem);
      if nextItem.Some? {
        var id := GetId(nextItem.value);
        if id.Failure? {
          return;
        }
        next := Some(Link(base.value, id.value, query, facetQuery, filterQuery, ToInt32(currentPosition + 1)));
      }
      if previousItem.Some? {
        var id := GetId(previousItem.value);
        if id.Failure? {
          return;
        }
        previous := Some(Link(base.value, id.value, query, facetQuery, filterQuery, ToInt32(currentPosition - 1)));
      }
    }
  }
}
