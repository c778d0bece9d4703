// Page-window arithmetic of the list paginator
// (de.mpg.imeji.presentation.beans.SuperPaginatorBean): the page list
// rebuilt by `update`, the offset of the current page, the seven-page
// window shown around it, page jumps and sort-order toggling.
module SuperPaginatorBean {
  import opened Wrappers
  import opened JavaStrings

  /** The page size `update` substitutes for an unset (zero) one. */
  const DefaultElementsPerPage: int := 24
  const Descending: string := "DESCENDING"
  const Ascending: string := "ASCENDING"

  // ---------------------------------------------------------------------
  // Page arithmetic

  /** The bound of the loop in `update`: `((total - 1) / perPage) + 1` with Java's truncating division. */
  function PageCount(total: int, perPage: int): int
    requires perPage != 0
  {
    JavaDiv(total - 1, perPage) + 1
  }

  /** The page list after the loop runs `n` times: 1, 2, ..., n. */
  function PageNumbers(n: int): (r: seq<int>)
    ensures |r| == if n > 0 then n else 0
    ensures forall i :: 0 <= i < |r| ==> r[i] == i + 1
  {
    if n <= 0 then [] else seq(n, i => i + 1)
  }

  /** For a non-empty result the page count is the ceiling of total / perPage. */
  lemma PageCountCeiling(total: int, perPage: int)
    requires total >= 1 && perPage >= 1
    ensures var n := PageCount(total, perPage);
      n >= 1 && (n - 1) * perPage < total <= n * perPage
  {
    var q := (total - 1) / perPage;
    var m := (total - 1) % perPage;
    assert total - 1 == q * perPage + m && 0 <= m < perPage;
    assert (q + 1) * perPage == q * perPage + perPage;
  }

  /**
   * Truncation makes an empty result one page, as long as a page holds more
   * than one element; with one element per page it gives no page at all.
   */
  lemma EmptyResultPages(perPage: int)
    requires perPage >= 1
    ensures perPage >= 2 ==> PageCount(0, perPage) == 1
    ensures perPage == 1 ==> PageCount(0, perPage) == 0
  {
  }

  /** `getOffset`: the index of the first element of `page`. */
  function OffsetOf(page: int, perPage: int): int {
    (page - 1) * perPage
  }

  /** Every listed page starts at an existing element, and pages follow each other without gap. */
  lemma OffsetOnPage(page: int, total: int, perPage: int)
    requires total >= 1 && perPage >= 1
    requires 1 <= page <= PageCount(total, perPage)
    ensures 0 <= OffsetOf(page, perPage) < total
    ensures OffsetOf(page + 1, perPage) == OffsetOf(page, perPage) + perPage
  {
    PageCountCeiling(total, perPage);
    var n := PageCount(total, perPage);
    assert (page - 1) * perPage <= (n - 1) * perPage by {
      assert (n - 1) * perPage - (page - 1) * perPage == (n - page) * perPage;
    }
    assert page * perPage == (page - 1) * perPage + perPage;
  }

  /** `getFirstPaginatorPageNumber` for a page list of `size` pages. */
  function FirstPageNumber(size: int, page: int): int {
    if size > 7 && page > size - 4 then size - 6
    else if size > 7 && page > 4 then page - 3
    else 1
  }

  /**
   * The window of seven page links starting at the first paginator page
   * holds the current page and, with more than seven pages, stays inside
   * the page list.
   */
  lemma PaginatorWindow(size: int, page: int)
    requires 1 <= page <= size
    ensures var f := FirstPageNumber(size, page);
      1 <= f <= page <= f + 6 && (size > 7 ==> f + 6 <= size) && (size <= 7 ==> f == 1)
  {
  }

  /** `toggleSortOrder`: DESCENDING becomes ASCENDING, anything else DESCENDING. */
  function ToggledOrder(order: string): (r: string)
    ensures r == Ascending <==> order == Descending
    ensures r == Descending <==> order != Descending
  {
    if order == Descending then Ascending else Descending
  }

  // ---------------------------------------------------------------------
  // Request parameters

  /**
   * `readUrlParameters`: the page and page size given by the `page` and
   * `el` request parameters, 0 for a missing one. `Integer.parseInt`,
   * which reads the decimal digits of any script, throws a
   * NumberFormatException on a value that is not a Java int, which is
   * `None`.
   */
  function UrlParameters(params: map<string, string>): (r: Option<(int, int)>)
    ensures r.None? <==>
      ("page" in params && ParseInt(params["page"]).None?) || ("el" in params && ParseInt(params["el"]).None?)
    ensures r.Some? ==> IntMin <= r.value.0 <= IntMax && IntMin <= r.value.1 <= IntMax
    ensures r.Some? && "page" !in params ==> r.value.0 == 0
    ensures r.Some? && "el" !in params ==> r.value.1 == 0
    ensures "page" in params && params["page"] == "" ==> r.None?
    ensures "el" in params && params["el"] == "" ==> r.None?
  {
    var page := if "page" in params then ParseInt(params["page"]) else Some(0);
    var el := if "el" in params then ParseInt(params["el"]) else Some(0);
    if page.None? || el.None? then None else Some((page.value, el.value))
  }

  /** A page and a page size written into the request are read back. */
  lemma UrlParametersRoundTrip(page: nat, el: nat)
    requires page <= IntMax && el <= IntMax
    ensures UrlParameters(map["page" := NatToString(page), "el" := NatToString(el)]) == Some((page, el))
  {
    ParseNatToString(page, IntMin, IntMax);
    ParseNatToString(el, IntMin, IntMax);
  }

  /**
   * `new SuperPaginatorBean()`: the constructor reads the request
   * parameters, and a malformed one makes it throw.
   */
  method NewPaginator(params: map<string, string>) returns (r: Result<SuperPaginatorBean, string>)
    ensures r.Failure? <==> UrlParameters(params).None?
    ensures r.Success? ==> fresh(r.value) && r.value.Valid()
    ensures r.Success? ==> r.value.currentPageNumber == UrlParameters(params).value.0
    ensures r.Success? ==> r.value.elementsPerPage == UrlParameters(params).value.1
    ensures r.Success? ==> r.value.totalNumberOfElements == 0 && r.value.paginatorPageList == [] && r.value.goToPage == None
    ensures r.Success? ==> r.value.selectedSortCriterion == None && r.value.selectedSortOrder == Descending
  {
    var read := UrlParameters(params);
    if read.None? {
      return Failure("NumberFormatException");
    }
    var bean := new SuperPaginatorBean(read.value.0, read.value.1);
    r := Success(bean);
  }

  // ---------------------------------------------------------------------
  // The bean

  class SuperPaginatorBean {
    var elementsPerPage: int
    var currentPageNumber: int
    var totalNumberOfElements: int
    var paginatorPageList: seq<int>
    var goToPage: Option<string>
    var selectedSortCriterion: Option<string>
    var selectedSortOrder: string

    /** The page list always holds 1, 2, ..., its length. */
    ghost predicate Valid()
      reads this
    {
      paginatorPageList == PageNumbers(|paginatorPageList|)
    }

    /** The bean once `readUrlParameters` has read the page `page` and the page size `el`. */
    constructor(page: int, el: int)
      ensures Valid()
      ensures currentPageNumber == page && elementsPerPage == el
      ensures totalNumberOfElements == 0 && paginatorPageList == [] && goToPage == None
      ensures selectedSortCriterion == None && selectedSortOrder == Descending
    {
      elementsPerPage := el;
      currentPageNumber := page;
      totalNumberOfElements := 0;
      paginatorPageList := [];
      goToPage := None;
      selectedSortCriterion := None;
      selectedSortOrder := Descending;
    }

    /**
     * `update` once the list has `total` elements: unset page size and page
     * become 24 and 1, and the page list is rebuilt in a loop.
     */
    method Update(total: int)
      modifies this
      ensures elementsPerPage == if old(elementsPerPage) == 0 then DefaultElementsPerPage else old(elementsPerPage)
      ensures currentPageNumber == if old(currentPageNumber) == 0 then 1 else old(currentPageNumber)
      ensures goToPage == Some(IntToString(currentPageNumber))
      ensures totalNumberOfElements == total
      ensures paginatorPageList == PageNumbers(PageCount(total, elementsPerPage))
      ensures selectedSortCriterion == old(selectedSortCriterion) && selectedSortOrder == old(selectedSortOrder)
      ensures Valid()
    {
      if elementsPerPage == 0 {
        elementsPerPage := DefaultElementsPerPage;
      }
      if currentPageNumber == 0 {
        currentPageNumber := 1;
      }
      goToPage := Some(IntToString(currentPageNumber));
      totalNumberOfElements := total;
      var pages := [];
      var bound := PageCount(totalNumberOfElements, elementsPerPage);
      var i := 0;
      while i < bound
        invariant 0 <= i <= (if bound > 0 then bound else 0)
        invariant pages == PageNumbers(i)
      {
        pages := pages + [i + 1];
        i := i + 1;
      }
      assert |PageNumbers(bound)| == |pages|;
      paginatorPageList := pages;
    }

    function Offset(): int
      reads this
    {
      OffsetOf(currentPageNumber, elementsPerPage)
    }

    function PaginatorPageSize(): int
      reads this
    {
      |paginatorPageList|
    }

    function FirstPaginatorPageNumber(): int
      reads this
    {
      FirstPageNumber(PaginatorPageSize(), currentPageNumber)
    }

    /** `getPageOffset`: how many page links precede the window. */
    function PageOffset(): (r: int)
      reads this
      ensures r >= 0
      ensures FirstPaginatorPageNumber() > 1 ==> r + 1 == FirstPaginatorPageNumber()
    {
      if FirstPaginatorPageNumber() > 1 then FirstPaginatorPageNumber() - 1 else 0
    }

    /** `gotoPageNumber`: only an existing page is selected; the list is updated either way. */
    method GotoPageNumber(page: int, total: int)
      modifies this
      ensures 0 < page <= old(|paginatorPageList|) ==> currentPageNumber == page
      ensures !(0 < page <= old(|paginatorPageList|)) ==>
        currentPageNumber == if old(currentPageNumber) == 0 then 1 else old(currentPageNumber)
      ensures elementsPerPage == if old(elementsPerPage) == 0 then DefaultElementsPerPage else old(elementsPerPage)
      ensures goToPage == Some(IntToString(currentPageNumber))
      ensures paginatorPageList == PageNumbers(PageCount(total, elementsPerPage))
      ensures selectedSortCriterion == old(selectedSortCriterion) && selectedSortOrder == old(selectedSortOrder)
      ensures totalNumberOfElements == total && Valid()
    {
      if 0 < page <= PaginatorPageSize() {
        currentPageNumber := page;
      }
      Update(total);
    }

    /** `elementsPerPageListener`: a new page size restarts at page 1; a missing event does nothing. */
    method ElementsPerPageListener(newValue: Option<int>, total: int)
      modifies this
      ensures newValue.None? ==> unchanged(this)
      ensures newValue.Some? ==>
        (currentPageNumber == 1 && goToPage == Some(IntToString(1)) && totalNumberOfElements == total &&
         elementsPerPage == (if newValue.value == 0 then DefaultElementsPerPage else newValue.value) &&
         paginatorPageList == PageNumbers(PageCount(total, elementsPerPage)) &&
         selectedSortCriterion == old(selectedSortCriterion) && selectedSortOrder == old(selectedSortOrder))
    {
      if newValue.Some? {
        elementsPerPage := newValue.value;
        currentPageNumber := 1;
        Update(total);
      }
    }

    method ToggleSortOrder(total: int)
      modifies this
      ensures selectedSortOrder == ToggledOrder(old(selectedSortOrder))
      ensures selectedSortCriterion == old(selectedSortCriterion)
      ensures elementsPerPage == if old(elementsPerPage) == 0 then DefaultElementsPerPage else old(elementsPerPage)
      ensures currentPageNumber == if old(currentPageNumber) == 0 then 1 else old(currentPageNumber)
      ensures goToPage == Some(IntToString(currentPageNumber))
      ensures paginatorPageList == PageNumbers(PageCount(total, elementsPerPage))
      ensures totalNumberOfElements == total && Valid()
    {
      selectedSortOrder := ToggledOrder(selectedSortOrder);
      Update(total);
    }

    /**
     * `changeSelectedSortCriterion`: a new criterion is selected, the same
     * one toggles the order. Comparing against a criterion never set throws
     * a NullPointerException, reported as `npe` with nothing changed.
     */
    method ChangeSelectedSortCriterion(criterion: string, total: int) returns (npe: bool)
      modifies this
      ensures npe <==> old(selectedSortCriterion).None?
      ensures npe ==> unchanged(this)
      ensures !npe ==>
        elementsPerPage == (if old(elementsPerPage) == 0 then DefaultElementsPerPage else old(elementsPerPage)) &&
        currentPageNumber == (if old(currentPageNumber) == 0 then 1 else old(currentPageNumber)) &&
        goToPage == Some(IntToString(currentPageNumber)) && totalNumberOfElements == total &&
        paginatorPageList == PageNumbers(PageCount(total, elementsPerPage)) && Valid()
      ensures !npe && old(selectedSortCriterion) != Some(criterion) ==>
        selectedSortCriterion == Some(criterion) && selectedSortOrder == old(selectedSortOrder)
      ensures !npe && old(selectedSortCriterion) == Some(criterion) ==>
        selectedSortCriterion == Some(criterion) && selectedSortOrder == ToggledOrder(old(selectedSortOrder))
    {
      if selectedSortCriterion.None? {
        return true;
      }
      npe := false;
      if selectedSortCriterion.value != criterion {
        selectedSortCriterion := Some(criterion);
        Update(total);
      } else {
        ToggleSortOrder(total);
      }
    }
  }
}
